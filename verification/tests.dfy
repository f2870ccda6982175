/** The crate's own unit tests of the macro: `TestBitfield<u32>`, whose
    fields mix raw widths, a reserved field, a `bool` and an enum. */
module Tests {
  import opened Wrappers
  import opened Word
  import opened Codecs
  import opened Pack
  import opened Layout
  import opened Registry
  import opened Bitfields
  import opened Display

  /** `#[repr(u8)] enum TestEnum { Foo = 0b00, Bar = 0b01, Baz = 0b10, Qux = 0b11 }`. */
  datatype TestEnum = Foo | Bar | Baz | Qux

  /** Its `FromBits<u32>` impl. The error type is `Infallible`; the catch-all
      arm is `unreachable!`, modelled as `Err(())`. */
  function TestEnumBits(): Codec<TestEnum, ()>
  {
    Codec(2,
      (v: TestEnum) => match v case Foo => 0 case Bar => 1 case Baz => 2 case Qux => 3,
      (b: nat) =>
        var x := b % 0x100;
        if x == 0 then Ok(Foo) else if x == 1 then Ok(Bar) else if x == 2 then Ok(Baz)
        else if x == 3 then Ok(Qux) else Err(()))
  }

  lemma TestEnumLawful()
    ensures Lawful(TestEnumBits())
  {
    assert Pow2(2) == 4;
  }

  /** The catch-all arm is indeed unreachable: every two-bit pattern is a
      variant. */
  lemma TestEnumTotal(b: nat)
    ensures TestEnumBits().tryFromBits(b).Err? <==> b % 0x100 >= 4
  {
  }

  function ShowTestEnum(v: TestEnum): string
  {
    match v
    case Foo => "Foo"
    case Bar => "Bar"
    case Baz => "Baz"
    case Qux => "Qux"
  }

  function TestDecls(): seq<Decl>
  {
    [Decl("HELLO", Literal(4)), Decl("_RESERVED_1", Literal(3)), Decl("WORLD", Typed(1)),
     Decl("HAVE", Typed(2)), Decl("LOTS", Literal(5)), Decl("OF", Literal(1)), Decl("FUN", Literal(6))]
  }

  function Hello(): PackSpec<uint32, ()>
  {
    FirstRaw(32, 4, Raw32())
  }

  function Reserved1(): PackSpec<uint32, ()>
  {
    Hello().NextRaw(3, Raw32())
  }

  function World(): PackSpec<bool, ()>
  {
    Reserved1().Then(Flag())
  }

  function Have(): PackSpec<TestEnum, ()>
  {
    World().Then(TestEnumBits())
  }

  function Lots(): PackSpec<uint32, ()>
  {
    Have().NextRaw(5, Raw32())
  }

  function Of(): PackSpec<uint32, ()>
  {
    Lots().NextRaw(1, Raw32())
  }

  function Fun(): PackSpec<uint32, ()>
  {
    Of().NextRaw(6, Raw32())
  }

  function TestBitfield(): Struct
  {
    Struct("TestBitfield", 32,
      [ ColumnOf("HELLO", Hello(), ShowU32),
        ColumnOf("_RESERVED_1", Reserved1(), ShowU32),
        ColumnOf("WORLD", World(), ShowBool),
        ColumnOf("HAVE", Have(), ShowTestEnum),
        ColumnOf("LOTS", Lots(), ShowU32),
        ColumnOf("OF", Of(), ShowU32),
        ColumnOf("FUN", Fun(), ShowU32) ])
  }

  function TestTable(): seq<Entry>
  {
    [Entry("HELLO", Field(0, 4)), Entry("_RESERVED_1", Field(4, 3)), Entry("WORLD", Field(7, 1)),
     Entry("HAVE", Field(8, 2)), Entry("LOTS", Field(10, 5)), Entry("OF", Field(15, 1)),
     Entry("FUN", Field(16, 6))]
  }

  /** The columns of `TestBitfield` are the entries of its `FIELDS` table. */
  lemma TestColumns()
    ensures TestBitfield().n == 32 && TestBitfield().Table() == TestTable()
  {
  }

  /** The declarations lay out as `TestTable`, which passes
      `assert_all_valid`. */
  lemma TestTableLaidOut()
    ensures Fields(TestDecls(), 32) == Some(TestTable())
    ensures AssertAllValid(TestTable(), 32).None?
  {
    var es := TestTable();
    var d := TestDecls();
    TestChainUpper();
    assert d[1..][1..][1..] == d[3..];
    assert Chain(Field(7, 1), d[1..][1..][1..], 32) == Some(es[3..]);
    assert [es[2]] + es[3..] == es[2..];
    assert Chain(Field(4, 3), d[1..][1..], 32) == Some(es[2..]);
    assert [es[1]] + es[2..] == es[1..];
    assert Chain(Field(0, 4), d[1..], 32) == Some(es[1..]);
    assert [es[0]] + es[1..] == es;
    LayoutValid(d, 32, es);
  }

  /** The fields from HAVE up. */
  lemma TestChainUpper()
    ensures Chain(Field(7, 1), TestDecls()[3..], 32) == Some(TestTable()[3..])
  {
    var es := TestTable();
    var d := TestDecls()[3..];
    assert d[1..][1..][1..][1..] == [];
    assert Chain(Field(16, 6), d[1..][1..][1..][1..], 32) == Some([]);
    assert [es[6]] + [] == es[6..];
    assert Chain(Field(15, 1), d[1..][1..][1..], 32) == Some(es[6..]);
    assert [es[5]] + es[6..] == es[5..];
    assert Chain(Field(10, 5), d[1..][1..], 32) == Some(es[5..]);
    assert [es[4]] + es[5..] == es[4..];
    assert Chain(Field(8, 2), d[1..], 32) == Some(es[4..]);
    assert [es[3]] + es[4..] == es[3..];
  }

  /** `macro_bitfield_valid`: the constants are the fields laid out from the
      declarations, and `assert_valid` returns normally. */
  lemma TestLayout()
    ensures Fields(TestDecls(), 32) == Some(TestBitfield().Table())
    ensures TestBitfield().AssertValid() == None
  {
    TestColumns();
    TestTableLaidOut();
    AssertAllValidIff(TestTable(), 32);
  }

  lemma TestDrawable()
    ensures Drawable(TestBitfield())
  {
    TestColumns();
    DrawableTable(TestBitfield(), TestTable());
  }

  /** `test_bitfield_format`: formatting a `TestBitfield` never panics,
      whatever its bits, because every field's type accepts every pattern of
      its width. */
  lemma TestFormatNeverPanics(raw: nat)
    requires raw < Pow2(32)
    ensures Drawable(TestBitfield()) && DisplayText(TestBitfield(), Bitfield(raw)).Some?
    ensures Debug(TestBitfield(), Bitfield(raw)).Some?
  {
    TestDrawable();
    TestFieldsTotal();
    TotalFieldsNeverPanic(TestBitfield(), Bitfield(raw));
  }

  /** Every field of `TestBitfield`, the enum included, renders every bit
      pattern of its width. */
  lemma TestFieldsTotal()
    ensures forall i, bits: nat :: 0 <= i < |TestBitfield().columns| && bits < Pow2(TestBitfield().columns[i].field.width) ==>
              TestBitfield().columns[i].show(bits).Some?
  {
    var s := TestBitfield();
    forall i, bits: nat | 0 <= i < |s.columns| && bits < Pow2(s.columns[i].field.width)
      ensures s.columns[i].show(bits).Some?
    {
      if i == 0 {
        assert s.columns[i] == ColumnOf("HELLO", Hello(), ShowU32);
      } else if i == 1 {
        assert s.columns[i] == ColumnOf("_RESERVED_1", Reserved1(), ShowU32);
      } else if i == 2 {
        assert s.columns[i] == ColumnOf("WORLD", World(), ShowBool);
      } else if i == 3 {
        assert Pow2(2) == 4;
        assert s.columns[i] == ColumnOf("HAVE", Have(), ShowTestEnum);
      } else if i == 4 {
        assert s.columns[i] == ColumnOf("LOTS", Lots(), ShowU32);
      } else if i == 5 {
        assert s.columns[i] == ColumnOf("OF", Of(), ShowU32);
      } else {
        assert s.columns[i] == ColumnOf("FUN", Fun(), ShowU32);
      }
    }
  }
}
