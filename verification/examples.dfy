/** The bitfield types of the crate's documentation and tests, written out as
    the macro would lay them out, and what the documentation promises about
    them. */
module Examples {
  import opened Wrappers
  import opened Word
  import opened Codecs
  import opened Pack
  import opened Layout
  import opened Registry
  import opened Bitfields
  import opened Display

  lemma SmallPowers()
    ensures Pow2(0) == 1 && Pow2(1) == 2 && Pow2(2) == 4 && Pow2(3) == 8 && Pow2(4) == 16
    ensures Pow2(5) == 32 && Pow2(6) == 64 && Pow2(7) == 128 && Pow2(8) == 256
    ensures Pow2(9) == 512 && Pow2(10) == 1024
  {
    assert Pow2(1) == 2;
    assert Pow2(2) == 4;
    assert Pow2(3) == 8;
    assert Pow2(4) == 16;
    assert Pow2(5) == 32;
    assert Pow2(6) == 64;
    assert Pow2(7) == 128;
    assert Pow2(8) == 256;
    assert Pow2(9) == 512;
  }

  lemma Pow2Of13()
    ensures Pow2(13) == 8192
  {
    SmallPowers();
    PowAdd(3, 10);
  }

  /** `unpack_bits` on a word, given the powers of two involved. */
  lemma FieldOfWord(f: Field, raw: nat, n: nat, below: nat, span: nat)
    requires f.FitsIn(n) && raw < Pow2(n)
    requires Pow2(f.offset) == below && Pow2(f.width) == span
    ensures f.UnpackBits(raw, n) == (raw / below) % span
  {
    UnpackBitsIsArithmetic(f, raw, n);
  }

  // ---------------------------------------------------------------------
  // `MyBitfield<u16>`: HELLO = 6, _RESERVED = 4, WORLD = 3.

  function MyDecls(): seq<Decl>
  {
    [Decl("HELLO", Literal(6)), Decl("_RESERVED", Literal(4)), Decl("WORLD", Literal(3))]
  }

  function Hello(): PackSpec<uint16, ()>
  {
    FirstRaw(16, 6, Raw16())
  }

  function MyReserved(): PackSpec<uint16, ()>
  {
    Hello().NextRaw(4, Raw16())
  }

  function World(): PackSpec<uint16, ()>
  {
    MyReserved().NextRaw(3, Raw16())
  }

  function MyBitfield(): Struct
  {
    Struct("MyBitfield", 16,
      [ ColumnOf("HELLO", Hello(), ShowU16),
        ColumnOf("_RESERVED", MyReserved(), ShowU16),
        ColumnOf("WORLD", World(), ShowU16) ])
  }

  /** The constants the macro generates are the fields it lays out from the
      declarations, and they pass `assert_valid`. */
  lemma MyBitfieldLayout()
    ensures Fields(MyDecls(), 16) == Some(MyBitfield().Table())
    ensures MyBitfield().Table() == [Entry("HELLO", Field(0, 6)), Entry("_RESERVED", Field(6, 4)), Entry("WORLD", Field(10, 3))]
    ensures MyBitfield().AssertValid() == None
  {
    var es := MyBitfield().Table();
    var d := MyDecls();
    assert es == [Entry("HELLO", Field(0, 6)), Entry("_RESERVED", Field(6, 4)), Entry("WORLD", Field(10, 3))];
    var d1 := [Decl("_RESERVED", Literal(4)), Decl("WORLD", Literal(3))];
    var d2 := [Decl("WORLD", Literal(3))];
    assert d[1..] == d1 && d1[1..] == d2 && d2[1..] == [];
    assert Chain(Field(10, 3), [], 16) == Some([]);
    assert [es[2]] + [] == [es[2]];
    assert Chain(Field(6, 4), d2, 16) == Some([es[2]]);
    assert [es[1]] + [es[2]] == [es[1], es[2]];
    assert Chain(Field(0, 6), d1, 16) == Some([es[1], es[2]]);
    assert [es[0]] + [es[1], es[2]] == es;
    LayoutValid(MyDecls(), 16, es);
    AssertAllValidIff(es, 16);
  }

  /** What the fields of `from_bits(0b10100_0011_0101)` hold. */
  lemma MyFromBitsFields()
    ensures Field(0, 6).UnpackBits(0x1435, 16) == 0x35
    ensures Field(6, 4).UnpackBits(0x1435, 16) == 0
    ensures Field(10, 3).UnpackBits(0x1435, 16) == 5
  {
    MyHelloBits();
    MyReservedBits();
    MyWorldBits();
  }

  lemma MyHelloBits()
    ensures Field(0, 6).UnpackBits(0x1435, 16) == 0x35
  {
    SmallPowers();
    FieldOfMyWord(Field(0, 6), 1, 64);
  }

  lemma MyReservedBits()
    ensures Field(6, 4).UnpackBits(0x1435, 16) == 0
  {
    SmallPowers();
    FieldOfMyWord(Field(6, 4), 64, 16);
  }

  lemma MyWorldBits()
    ensures Field(10, 3).UnpackBits(0x1435, 16) == 5
  {
    SmallPowers();
    FieldOfMyWord(Field(10, 3), 1024, 8);
  }

  lemma FieldOfMyWord(f: Field, below: nat, span: nat)
    requires f.FitsIn(16) && Pow2(f.offset) == below && Pow2(f.width) == span
    ensures f.UnpackBits(0x1435, 16) == (0x1435 / below) % span
  {
    Pow2Of16();
    FieldOfWord(f, 0x1435, 16, below, span);
  }

  /** `from_bits(0b10100_0011_0101)`: HELLO reads 0b11_0101 and WORLD 0b0101. */
  lemma MyBitfieldGet()
    ensures Bitfield.FromBits(0x1435).Get(Hello()) == 0x35
    ensures Bitfield.FromBits(0x1435).Get(World()) == 5
  {
    MyFromBitsFields();
    ReadRaw16(Bitfield.FromBits(0x1435), Hello(), 0x35);
    ReadRaw16(Bitfield.FromBits(0x1435), World(), 5);
  }

  /** A `u16` field reads back its bits unchanged. */
  lemma ReadRaw16(b: Bitfield, p: PackSpec<uint16, ()>, u: uint16)
    requires p.codec == Raw16() && p.field.UnpackBits(b.raw, p.n) == u as nat
    ensures b.TryGet(p) == Ok(u)
  {
    var x := p.field.UnpackBits(b.raw, p.n);
    assert b.TryGet(p) == p.codec.tryFromBits(x);
    assert x == u as nat && x % 0x1_0000 == x;
    assert p.codec.tryFromBits(x) == Ok((x % 0x1_0000) as uint16);
  }

  /** What the fields of `new().with(HELLO, 0b11_0101).with(WORLD, 0b0101)` hold. */
  lemma MyWithFields()
    ensures Hello().field.UnpackBits(Bitfield.New().With(Hello(), 0x35).With(World(), 5).raw, 16) == 0x35
    ensures MyReserved().field.UnpackBits(Bitfield.New().With(Hello(), 0x35).With(World(), 5).raw, 16) == 0
    ensures World().field.UnpackBits(Bitfield.New().With(Hello(), 0x35).With(World(), 5).raw, 16) == 5
  {
    var b1 := Bitfield.New().With(Hello(), 0x35);
    SmallPowers();
    NewIsZero(MyReserved());
    PackPreservesDisjoint(World().field, Hello().field, 5, b1.raw, 16);
    PackThenUnpack(Hello().field, 0x35, 0, 16);
    PackPreservesDisjoint(World().field, MyReserved().field, 5, b1.raw, 16);
    PackPreservesDisjoint(Hello().field, MyReserved().field, 0x35, 0, 16);
    PackThenUnpack(World().field, 5, b1.raw, 16);
  }

  /** Neither `with` writes above WORLD, and `0b10100_0011_0101` has no bit
      there either. */
  lemma MyTopBits()
    ensures forall i :: 13 <= i < 16 ==> !Bit(Bitfield.New().With(Hello(), 0x35).With(World(), 5).raw, i)
    ensures forall i :: 13 <= i < 16 ==> !Bit(0x1435, i)
  {
    Pow2Of13();
    forall i | 13 <= i < 16
      ensures !Bit(Bitfield.New().With(Hello(), 0x35).With(World(), 5).raw, i) && !Bit(0x1435, i)
    {
      BitOfZero(i);
      BitAboveWidth(0x1435, 13, i);
    }
  }

  /** `new().with(HELLO, 0b11_0101).with(WORLD, 0b0101)` is the value
      `from_bits(0b10100_0011_0101)`. */
  lemma MyBitfieldWith()
    ensures Bitfield.New().With(Hello(), 0x35).With(World(), 5) == Bitfield.FromBits(0x1435)
  {
    var b2 := Bitfield.New().With(Hello(), 0x35).With(World(), 5);
    MyWithFields();
    MyFromBitsFields();
    MyTopBits();
    Pow2Of16();
    SameFieldsSameWord(Hello().field, MyReserved().field, World().field, b2.raw, 0x1435, 16);
  }

  /** Two words of n bits agreeing on three fields laid out from bit 0 and
      on every bit above them are equal. */
  lemma SameFieldsSameWord(f0: Field, f1: Field, f2: Field, x: nat, y: nat, n: nat)
    requires f0.offset == 0 && f1.offset == f0.MostSignificantIndex() && f2.offset == f1.MostSignificantIndex()
    requires f2.FitsIn(n) && x < Pow2(n) && y < Pow2(n)
    requires forall i :: f2.MostSignificantIndex() <= i < n ==> !Bit(x, i) && !Bit(y, i)
    requires f0.UnpackBits(x, n) == f0.UnpackBits(y, n)
    requires f1.UnpackBits(x, n) == f1.UnpackBits(y, n)
    requires f2.UnpackBits(x, n) == f2.UnpackBits(y, n)
    ensures x == y
  {
    var es := [Entry("", f0), Entry("", f1), Entry("", f2)];
    forall k | 0 <= k < |es|
      ensures es[k].field.FitsIn(n)
      ensures es[k].field.UnpackBits(x, n) == es[k].field.UnpackBits(y, n)
    {
      assert k == 0 || k == 1 || k == 2;
    }
    FieldBitsAgree(es, 0, x, y, n);
    SameBits(x, y, n);
  }

  /** `set` chained on a `new()` held in a variable builds the same value as
      the `with` chain. */
  method MyBitfieldSet() returns (b: MutBitfield)
    ensures b.Value() == Bitfield.FromBits(0x1435)
  {
    b := new MutBitfield.New(16);
    var self := b.Set(Hello(), 0x35);
    self := self.Set(World(), 5);
    MyBitfieldWith();
  }

  // ---------------------------------------------------------------------
  // `TypedBitfield<u32>`: ENUM_VALUE: MyEnum, SOME_BITS = 6, FLAG_1: bool,
  // FLAG_2: bool, A_BYTE: u8.

  /** `#[repr(u8)] enum MyEnum { Foo = 0b00, Bar = 0b01, Baz = 0b10 }`. */
  datatype MyEnum = Foo | Bar | Baz

  /** Its `FromBits<u32>` impl: two bits; `try_from_bits` matches the bits
      cast to `u8` against the discriminants and rejects anything else. */
  function MyEnumBits(): Codec<MyEnum, string>
  {
    Codec(2,
      (v: MyEnum) => match v case Foo => 0 case Bar => 1 case Baz => 2,
      (b: nat) =>
        var x := b % 0x100;
        if x == 0 then Ok(Foo) else if x == 1 then Ok(Bar) else if x == 2 then Ok(Baz)
        else Err("expected one of 0b00, 0b01, or 0b10"))
  }

  lemma MyEnumLawful()
    ensures Lawful(MyEnumBits())
  {
    assert Pow2(2) == 4;
  }

  /** The only two-bit pattern `MyEnum` rejects is 0b11. */
  lemma MyEnumRejects(b: nat)
    requires b < 4
    ensures MyEnumBits().tryFromBits(b).Err? <==> b == 3
  {
  }

  /** `MyEnum`'s derived `Debug`. */
  function ShowMyEnum(v: MyEnum): string
  {
    match v
    case Foo => "Foo"
    case Bar => "Bar"
    case Baz => "Baz"
  }

  function TypedDecls(): seq<Decl>
  {
    [Decl("ENUM_VALUE", Typed(2)), Decl("SOME_BITS", Literal(6)), Decl("FLAG_1", Typed(1)),
     Decl("FLAG_2", Typed(1)), Decl("A_BYTE", Typed(8))]
  }

  function EnumValue(): PackSpec<MyEnum, string>
  {
    First(32, MyEnumBits())
  }

  function SomeBits(): PackSpec<uint32, ()>
  {
    EnumValue().NextRaw(6, Raw32())
  }

  function Flag1(): PackSpec<bool, ()>
  {
    SomeBits().Then(Flag())
  }

  function Flag2(): PackSpec<bool, ()>
  {
    Flag1().Then(Flag())
  }

  function AByte(): PackSpec<uint8, ()>
  {
    Flag2().Then(Raw8())
  }

  function TypedBitfield(): Struct
  {
    Struct("TypedBitfield", 32,
      [ ColumnOf("ENUM_VALUE", EnumValue(), ShowMyEnum),
        ColumnOf("SOME_BITS", SomeBits(), ShowU32),
        ColumnOf("FLAG_1", Flag1(), ShowBool),
        ColumnOf("FLAG_2", Flag2(), ShowBool),
        ColumnOf("A_BYTE", AByte(), ShowU8) ])
  }

  function TypedTable(): seq<Entry>
  {
    [Entry("ENUM_VALUE", Field(0, 2)), Entry("SOME_BITS", Field(2, 6)), Entry("FLAG_1", Field(8, 1)),
     Entry("FLAG_2", Field(9, 1)), Entry("A_BYTE", Field(10, 8))]
  }

  /** The typed declarations lay out as the constants do, and pass
      `assert_valid`. */
  lemma TypedLayout()
    ensures TypedBitfield().Table() == TypedTable()
    ensures Fields(TypedDecls(), 32) == Some(TypedTable())
    ensures TypedBitfield().AssertValid() == None
  {
    var es := TypedTable();
    var d := TypedDecls();
    assert TypedBitfield().Table() == es;
    assert d[1..][1..][1..][1..][1..] == [];
    assert Chain(Field(10, 8), d[1..][1..][1..][1..][1..], 32) == Some([]);
    assert [es[4]] + [] == es[4..];
    assert Chain(Field(9, 1), d[1..][1..][1..][1..], 32) == Some(es[4..]);
    assert [es[3]] + es[4..] == es[3..];
    assert Chain(Field(8, 1), d[1..][1..][1..], 32) == Some(es[3..]);
    assert [es[2]] + es[3..] == es[2..];
    assert Chain(Field(2, 6), d[1..][1..], 32) == Some(es[2..]);
    assert [es[1]] + es[2..] == es[1..];
    assert Chain(Field(0, 2), d[1..], 32) == Some(es[1..]);
    assert [es[0]] + es[1..] == es;
    LayoutValid(d, 32, es);
    AssertAllValidIff(es, 32);
  }

  /** `get` and `try_get` on `from_bits(0b0011_0101_1001_1110)`: ENUM_VALUE
      reads `Baz`, SOME_BITS 0b10_0111, FLAG_1 is set, FLAG_2 clear and
      A_BYTE holds 0b1101. */
  lemma TypedEnumValue()
    ensures Bitfield.FromBits(0x359E).TryGet(EnumValue()) == Ok(Baz)
    ensures Bitfield.FromBits(0x359E).Get(EnumValue()) == Baz
  {
    TypedBitsEnum();
    assert Bitfield.FromBits(0x359E).TryGet(EnumValue()) == EnumValue().TryUnpack(0x359E);
  }

  lemma TypedSomeBits()
    ensures Bitfield.FromBits(0x359E).TryGet(SomeBits()) == Ok(39)
  {
    TypedBitsSome();
    assert Bitfield.FromBits(0x359E).TryGet(SomeBits()) == SomeBits().TryUnpack(0x359E);
  }

  lemma TypedFlag1()
    ensures Bitfield.FromBits(0x359E).TryGet(Flag1()) == Ok(true)
    ensures Bitfield.FromBits(0x359E).Get(Flag1()) == true
  {
    TypedBitsFlag1();
    assert Bitfield.FromBits(0x359E).TryGet(Flag1()) == Flag1().TryUnpack(0x359E);
  }

  lemma TypedFlag2()
    ensures Bitfield.FromBits(0x359E).TryGet(Flag2()) == Ok(false)
    ensures Bitfield.FromBits(0x359E).Get(Flag2()) == false
  {
    TypedBitsFlag2();
    assert Bitfield.FromBits(0x359E).TryGet(Flag2()) == Flag2().TryUnpack(0x359E);
  }

  lemma TypedAByte()
    ensures Bitfield.FromBits(0x359E).TryGet(AByte()) == Ok(13)
  {
    TypedBitsByte();
    var p := AByte();
    assert p.field == Field(10, 8) && p.n == 32;
    ReadsBits(Bitfield.FromBits(0x359E), p, 13);
    assert p.codec.tryFromBits(13) == Ok((13 % 0x100) as uint8);
  }

  /** `try_get` hands the field's bits to the value type's `try_from_bits`. */
  lemma ReadsBits<V, E>(b: Bitfield, p: PackSpec<V, E>, bits: nat)
    requires p.field.UnpackBits(b.raw, p.n) == bits
    ensures b.TryGet(p) == p.codec.tryFromBits(bits)
  {
  }

  /** `from_bits(0b11)`: ENUM_VALUE holds 0b11, which is no `MyEnum`, so
      `try_get` reports the codec's error (and `get` would panic). */
  lemma TypedBitfieldTryGet()
    ensures Bitfield.FromBits(3).TryGet(EnumValue()) == Err("expected one of 0b00, 0b01, or 0b10")
  {
    TypedBitsInvalid();
    assert Bitfield.FromBits(3).TryGet(EnumValue()) == EnumValue().TryUnpack(3);
  }

  lemma TypedBitsInvalid()
    ensures Field(0, 2).UnpackBits(3, 32) == 3
  {
    SmallPowers();
    Pow2Of32();
    FieldOfWord(Field(0, 2), 3, 32, 1, 4);
  }

  // The `Display` example: the ruler and one annotation row per field.
  // What the ruler and the rows look like depends only on the names and the
  // fields, so it is worked out for any struct of `TypedBitfield`'s shape.

  predicate TypedShape(s: Struct)
  {
    s.n == 32 && |s.columns| == 5 &&
    s.columns[0].name == "ENUM_VALUE" && s.columns[0].field == Field(0, 2) &&
    s.columns[1].name == "SOME_BITS" && s.columns[1].field == Field(2, 6) &&
    s.columns[2].name == "FLAG_1" && s.columns[2].field == Field(8, 1) &&
    s.columns[3].name == "FLAG_2" && s.columns[3].field == Field(9, 1) &&
    s.columns[4].name == "A_BYTE" && s.columns[4].field == Field(10, 8)
  }

  lemma TypedHasShape()
    ensures TypedShape(TypedBitfield())
  {
  }

  lemma ShapeDrawable(s: Struct)
    requires TypedShape(s)
    ensures Drawable(s)
  {
    var t := s.Table();
    assert t[0].field == Field(0, 2) && t[1].field == Field(2, 6) && t[2].field == Field(8, 1);
    assert t[3].field == Field(9, 1) && t[4].field == Field(10, 8);
  }

  /** The blanks above A_BYTE, the highest field. */
  lemma ShapeLead(s: Struct)
    requires TypedShape(s)
    ensures Drawable(s) && Spaces(s.n - Base(s, |s.columns|)) == "              "
  {
    ShapeDrawable(s);
    RepeatChars(' ', 14);
  }

  /** Each field's ruler segment. */
  lemma ShapeGlyph(s: Struct)
    requires TypedShape(s)
    ensures NoEmptyField(s.columns)
    ensures Glyph(s.columns[4]) == "└┬─────┘" && Glyph(s.columns[3]) == "│" && Glyph(s.columns[2]) == "│"
    ensures Glyph(s.columns[1]) == "└┬───┘" && Glyph(s.columns[0]) == "└┤"
  {
  }

  lemma ShapeGlyphs(s: Struct)
    requires TypedShape(s)
    ensures NoEmptyField(s.columns) && Glyphs(s.columns, 0, 5) == "└┬─────┘││└┬───┘└┤"
  {
    ShapeGlyph(s);
    var cols := s.columns;
    assert Glyphs(cols, 2, 5) == Glyphs(cols, 3, 5) + "│" == "└┬─────┘││";
    assert Glyphs(cols, 0, 5) == Glyphs(cols, 1, 5) + "└┤" == "└┬─────┘││└┬───┘└┤";
  }

  /** The ruler under `0b0011_0101_1001_1110`'s digits. */
  lemma ShapeRuler(s: Struct)
    requires TypedShape(s)
    ensures Drawable(s) && Ruler(s) == "              └┬─────┘││└┬───┘└┤"
  {
    ShapeLead(s);
    ShapeGlyphs(s);
  }

  /** What each annotation row writes before its corner. */
  lemma ShapeCrossings(s: Struct)
    requires TypedShape(s)
    ensures Drawable(s)
    ensures Crossings(s, 0) == "              " + " │      ││ │    "
    ensures Crossings(s, 1) == "              " + " │      ││"
    ensures Crossings(s, 2) == "              " + " │      │"
    ensures Crossings(s, 3) == "              " + " │      "
    ensures Crossings(s, 4) == "              " + ""
  {
    ShapeLead(s);
    ShapePasses(s);
  }

  /** How an annotation row crosses each field above the lowest. */
  lemma ShapePass(s: Struct)
    requires TypedShape(s)
    ensures NoEmptyField(s.columns)
    ensures Pass(s.columns[4]) == " │      " && Pass(s.columns[3]) == "│" && Pass(s.columns[2]) == "│"
    ensures Pass(s.columns[1]) == " │    "
  {
  }

  lemma ShapePasses(s: Struct)
    requires TypedShape(s)
    ensures NoEmptyField(s.columns)
    ensures Passes(s.columns, 5, 5) == ""
    ensures Passes(s.columns, 4, 5) == " │      "
    ensures Passes(s.columns, 3, 5) == " │      │"
    ensures Passes(s.columns, 2, 5) == " │      ││"
    ensures Passes(s.columns, 1, 5) == " │      ││ │    "
  {
    ShapePass(s);
    var cols := s.columns;
    PassesStep(cols, 4, "", " │      ", " │      ");
    PassesStep(cols, 3, " │      ", "│", " │      │");
    PassesStep(cols, 2, " │      │", "│", " │      ││");
    PassesStep(cols, 1, " │      ││", " │    ", " │      ││ │    ");
  }

  /** Crossing one more field down the walk. */
  lemma PassesStep(cols: seq<Column>, k: nat, before: string, g: string, after: string)
    requires k < |cols| && NoEmptyField(cols)
    requires Passes(cols, k + 1, |cols|) == before && Pass(cols[k]) == g && before + g == after
    ensures Passes(cols, k, |cols|) == after
  {
  }

  /** Each row's run of dashes: the names are padded to ENUM_VALUE's ten
      characters. */
  lemma ShapeDashes(s: Struct)
    requires TypedShape(s)
    ensures Drawable(s)
    ensures Dashes(s, 0) == 0 && Dashes(s, 1) == 6 && Dashes(s, 2) == 11
    ensures Dashes(s, 3) == 12 && Dashes(s, 4) == 19
  {
    ShapeDrawable(s);
    assert MaxNameLength(s.columns, 0, 5) == 10;
  }

  /** An annotation row, from what its parts are. */
  lemma RowOf(s: Struct, raw: nat, t: nat, bits: nat, value: string, cross: string, dashes: nat)
    requires Drawable(s) && t < |s.columns|
    requires s.columns[t].field.UnpackBits(raw, s.n) == bits && s.columns[t].show(bits) == Some(value)
    requires Crossings(s, t) == cross && Dashes(s, t) == dashes
    ensures Row(s, raw, t) == Some(cross + Corner(s.columns[t])
                                   + Label(s.columns[t].name, dashes, value, PadBinary(bits, s.columns[t].field.width)))
  {
  }

  // The fields of `0b0011_0101_1001_1110` and how they render.

  lemma TypedBitsEnum()
    ensures Field(0, 2).UnpackBits(0x359E, 32) == 2
  {
    Pow2Small(0);
    Pow2Small(2);
    TypedWordBits(Field(0, 2), 1, 4, 2);
  }

  lemma TypedBitsSome()
    ensures Field(2, 6).UnpackBits(0x359E, 32) == 39
  {
    Pow2Small(2);
    Pow2Small(6);
    TypedWordBits(Field(2, 6), 4, 64, 39);
  }

  lemma TypedBitsFlag1()
    ensures Field(8, 1).UnpackBits(0x359E, 32) == 1
  {
    Pow2Small(8);
    Pow2Small(1);
    TypedWordBits(Field(8, 1), 256, 2, 1);
  }

  lemma TypedBitsFlag2()
    ensures Field(9, 1).UnpackBits(0x359E, 32) == 0
  {
    Pow2Small(9);
    Pow2Small(1);
    TypedWordBits(Field(9, 1), 512, 2, 0);
  }

  lemma TypedBitsByte()
    ensures Field(10, 8).UnpackBits(0x359E, 32) == 13
  {
    Pow2Small(10);
    Pow2Small(8);
    TypedWordBits(Field(10, 8), 1024, 256, 13);
  }

  /** 2^k for the offsets and widths of the example fields. */
  lemma Pow2Small(k: nat)
    requires k <= 10
    ensures Pow2(k) == [1, 2, 4, 8, 16, 32, 64, 128, 256, 512, 1024][k]
  {
    SmallPowers();
  }

  lemma TypedWordBits(f: Field, below: nat, span: nat, v: nat)
    requires f.FitsIn(32) && Pow2(f.offset) == below && Pow2(f.width) == span
    requires (0x359E / below) % span == v
    ensures f.UnpackBits(0x359E, 32) == v
  {
    TypedWordField(f, below, span);
  }

  lemma TypedWordField(f: Field, below: nat, span: nat)
    requires f.FitsIn(32) && Pow2(f.offset) == below && Pow2(f.width) == span
    ensures f.UnpackBits(0x359E, 32) == (0x359E / below) % span
  {
    Pow2Of32();
    FieldOfWord(f, 0x359E, 32, below, span);
  }

  /** The fields' bits as `Display` prints them, zero-padded to the field's
      width. */
  lemma TypedDigits()
    ensures PadBinary(2, 2) == "10" && PadBinary(39, 6) == "100111"
    ensures PadBinary(1, 1) == "1" && PadBinary(0, 1) == "0" && PadBinary(13, 8) == "00001101"
  {
    assert Binary(39) == "100111";
    assert Binary(13) == "1101";
  }

  /** The first line of the documented `Display` output: the whole word as
      32 binary digits. */
  lemma TypedBinaryRow(b: Bitfield)
    requires b == Bitfield.FromBits(0x359E)
    ensures PadBinary(b.raw, TypedBitfield().n) == "00000000000000000011010110011110"
  {
    TypedBinaryDigits();
    TypedLeadingZeros();
    PaddedWith(b.raw, TypedBitfield().n, "11010110011110", "000000000000000000");
  }

  /** A numeral shorter than its width is padded with exactly the zeros it
      lacks. */
  lemma PaddedWith(x: nat, w: nat, d: string, z: string)
    requires Binary(x) == d && |d| < w && z == Repeat('0', w - |d|)
    ensures PadBinary(x, w) == z + d
  {
  }

  lemma TypedLeadingZeros()
    ensures Repeat('0', 18) == "000000000000000000"
  {
    RepeatChars('0', 18);
  }

  lemma TypedBinaryDigits()
    ensures Binary(0x359E) == "11010110011110"
  {
    assert Binary(3) == "11";
    assert Binary(6) == "110";
    assert Binary(13) == "1101";
    assert Binary(26) == "11010";
    assert Binary(53) == "110101";
    assert Binary(107) == "1101011";
    assert Binary(214) == "11010110";
    assert Binary(428) == "110101100";
    assert Binary(857) == "1101011001";
    assert Binary(1715) == "11010110011";
    assert Binary(3431) == "110101100111";
    assert Binary(6863) == "1101011001111";
  }

  lemma TypedShows()
    ensures TypedBitfield().columns[0].show(2) == Some("Baz")
    ensures TypedBitfield().columns[1].show(39) == Some("39")
    ensures TypedBitfield().columns[2].show(1) == Some("true")
    ensures TypedBitfield().columns[3].show(0) == Some("false")
    ensures TypedBitfield().columns[4].show(13) == Some("13")
  {
    var cols := TypedBitfield().columns;
    assert cols[0] == ColumnOf("ENUM_VALUE", EnumValue(), ShowMyEnum);
    assert cols[1] == ColumnOf("SOME_BITS", SomeBits(), ShowU32);
    assert cols[2] == ColumnOf("FLAG_1", Flag1(), ShowBool);
    assert cols[3] == ColumnOf("FLAG_2", Flag2(), ShowBool);
    assert cols[4] == ColumnOf("A_BYTE", AByte(), ShowU8);
    assert Decimal(39) == "39" && Decimal(13) == "13";
  }

  /** The annotation rows of `from_bits(0b0011_0101_1001_1110)`: ENUM_VALUE
      reads `Baz` (0b10), SOME_BITS 39, FLAG_1 `true`, FLAG_2 `false` and
      A_BYTE 13. */
  lemma TypedRows()
    ensures TypedShape(TypedBitfield()) && Drawable(TypedBitfield())
    ensures Row(TypedBitfield(), 0x359E, 0) == Some("               │      ││ │     └" + Repeat('─', 0) + " ENUM_VALUE: Baz (10)\n")
    ensures Row(TypedBitfield(), 0x359E, 1) == Some("               │      ││ └" + Repeat('─', 6) + " SOME_BITS: 39 (100111)\n")
    ensures Row(TypedBitfield(), 0x359E, 2) == Some("               │      │└" + Repeat('─', 11) + " FLAG_1: true (1)\n")
    ensures Row(TypedBitfield(), 0x359E, 3) == Some("               │      └" + Repeat('─', 12) + " FLAG_2: false (0)\n")
    ensures Row(TypedBitfield(), 0x359E, 4) == Some("               └" + Repeat('─', 19) + " A_BYTE: 13 (00001101)\n")
  {
    var s := TypedBitfield();
    TypedHasShape();
    TypedShows();
    ShapeRow0(s);
    ShapeRow1(s);
    ShapeRow2(s);
    ShapeRow3(s);
    ShapeRow4(s);
  }

  lemma ShapeRow0(s: Struct)
    requires TypedShape(s) && s.columns[0].show(2) == Some("Baz")
    ensures Drawable(s) && Row(s, 0x359E, 0) == Some("               │      ││ │     └" + Repeat('─', 0) + " ENUM_VALUE: Baz (10)\n")
  {
    ShapeCrossings(s);
    ShapeDashes(s);
    TypedBitsEnum();
    TypedDigits();
    RowOf(s, 0x359E, 0, 2, "Baz", "              " + " │      ││ │    ", 0);
    RowText0();
  }

  /** An annotation row's text, from the crossings and corner before the
      dashes and the label after them. */
  lemma RowText(cross: string, corner: string, name: string, dashes: nat, value: string, digits: string,
                head: string, tail: string)
    requires cross + corner == head
    requires " " + name + ": " + value + " (" + digits + ")\n" == tail
    ensures cross + corner + Label(name, dashes, value, digits) == head + Repeat('─', dashes) + tail
  {
    var r := Repeat('─', dashes);
    assert Label(name, dashes, value, digits) == r + tail;
    AppendAssoc(head, r, tail);
  }

  lemma RowText0()
    ensures "              " + " │      ││ │    " + " └" + Label("ENUM_VALUE", 0, "Baz", "10") == "               │      ││ │     └" + Repeat('─', 0) + " ENUM_VALUE: Baz (10)\n"
  {
    RowText("              " + " │      ││ │    ", " └", "ENUM_VALUE", 0, "Baz", "10", "               │      ││ │     └", " ENUM_VALUE: Baz (10)\n");
  }

  lemma ShapeRow1(s: Struct)
    requires TypedShape(s) && s.columns[1].show(39) == Some("39")
    ensures Drawable(s) && Row(s, 0x359E, 1) == Some("               │      ││ └" + Repeat('─', 6) + " SOME_BITS: 39 (100111)\n")
  {
    ShapeCrossings(s);
    ShapeDashes(s);
    TypedBitsSome();
    TypedDigits();
    RowOf(s, 0x359E, 1, 39, "39", "              " + " │      ││", 6);
    RowText1();
  }

  lemma RowText1()
    ensures "              " + " │      ││" + " └" + Label("SOME_BITS", 6, "39", "100111") == "               │      ││ └" + Repeat('─', 6) + " SOME_BITS: 39 (100111)\n"
  {
    RowText("              " + " │      ││", " └", "SOME_BITS", 6, "39", "100111", "               │      ││ └", " SOME_BITS: 39 (100111)\n");
  }

  lemma ShapeRow2(s: Struct)
    requires TypedShape(s) && s.columns[2].show(1) == Some("true")
    ensures Drawable(s) && Row(s, 0x359E, 2) == Some("               │      │└" + Repeat('─', 11) + " FLAG_1: true (1)\n")
  {
    ShapeCrossings(s);
    ShapeDashes(s);
    TypedBitsFlag1();
    TypedDigits();
    RowOf(s, 0x359E, 2, 1, "true", "              " + " │      │", 11);
    RowText2();
  }

  lemma RowText2()
    ensures "              " + " │      │" + "└" + Label("FLAG_1", 11, "true", "1") == "               │      │└" + Repeat('─', 11) + " FLAG_1: true (1)\n"
  {
    RowText("              " + " │      │", "└", "FLAG_1", 11, "true", "1", "               │      │└", " FLAG_1: true (1)\n");
  }

  lemma ShapeRow3(s: Struct)
    requires TypedShape(s) && s.columns[3].show(0) == Some("false")
    ensures Drawable(s) && Row(s, 0x359E, 3) == Some("               │      └" + Repeat('─', 12) + " FLAG_2: false (0)\n")
  {
    ShapeCrossings(s);
    ShapeDashes(s);
    TypedBitsFlag2();
    TypedDigits();
    RowOf(s, 0x359E, 3, 0, "false", "              " + " │      ", 12);
    RowText3();
  }

  lemma RowText3()
    ensures "              " + " │      " + "└" + Label("FLAG_2", 12, "false", "0") == "               │      └" + Repeat('─', 12) + " FLAG_2: false (0)\n"
  {
    RowText("              " + " │      ", "└", "FLAG_2", 12, "false", "0", "               │      └", " FLAG_2: false (0)\n");
  }

  lemma ShapeRow4(s: Struct)
    requires TypedShape(s) && s.columns[4].show(13) == Some("13")
    ensures Drawable(s) && Row(s, 0x359E, 4) == Some("               └" + Repeat('─', 19) + " A_BYTE: 13 (00001101)\n")
  {
    ShapeCrossings(s);
    ShapeDashes(s);
    TypedBitsByte();
    TypedDigits();
    RowOf(s, 0x359E, 4, 13, "13", "              " + "", 19);
    RowText4();
  }

  lemma RowText4()
    ensures "              " + "" + " └" + Label("A_BYTE", 19, "13", "00001101") == "               └" + Repeat('─', 19) + " A_BYTE: 13 (00001101)\n"
  {
    RowText("              " + "", " └", "A_BYTE", 19, "13", "00001101", "               └", " A_BYTE: 13 (00001101)\n");
  }

  /** Formatting `from_bits(0b11)` panics: `Display` calls `get` on
      ENUM_VALUE, whose bits are no `MyEnum`. */
  lemma TypedDisplayPanics()
    ensures Drawable(TypedBitfield()) && DisplayText(TypedBitfield(), Bitfield.FromBits(3)).None?
  {
    var s := TypedBitfield();
    TypedHasShape();
    ShapeDrawable(s);
    TypedBitsInvalid();
    assert s.columns[0] == ColumnOf("ENUM_VALUE", EnumValue(), ShowMyEnum);
    assert s.columns[0].show(s.columns[0].field.UnpackBits(3, 32)).None?;
    assert !Renders(s, 3, 0);
    DisplayPanicsIff(s, Bitfield.FromBits(3));
  }
}
