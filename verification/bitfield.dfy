/** The struct `bitfield!` generates: a wrapper around one raw `T` with typed
    accessors for the fields of its layout (`new`, `from_bits`, `with`, `set`,
    `get`, `try_get`, `assert_valid`) and its `Debug` view. */
module Bitfields {
  import opened Wrappers
  import opened Word
  import opened Codecs
  import opened Pack
  import opened Layout
  import opened Registry

  /** A field of one bitfield struct as its `Debug` and `Display` impls see
      it: its name, its erased spec, and how its value type's `Debug` renders
      the bits the field holds (`None` when that type's `try_from_bits`
      rejects them, which is where `get` panics). */
  datatype Column = Column(name: string, field: Field, show: nat -> Option<string>)

  /** The column of a typed field, rendering its values with `render`. */
  function ColumnOf<V, E>(name: string, p: PackSpec<V, E>, render: V -> string): (c: Column)
    ensures c.name == name && c.field == p.Typed()
    ensures forall bits :: c.show(bits).Some? <==> p.codec.tryFromBits(bits).Ok?
    ensures forall bits :: p.codec.tryFromBits(bits).Ok? ==>
              c.show(bits) == Some(render(p.codec.tryFromBits(bits).value))
  {
    Column(name, p.field, (bits: nat) => match p.codec.tryFromBits(bits)
                                  case Ok(v) => Some(render(v))
                                  case Err(_) => None)
  }

  /** A generated struct: the width of `T` and its fields in declaration order. */
  datatype Struct = Struct(name: string, n: nat, columns: seq<Column>) {

    /** `FIELDS`: `(name, field.typed())` for every declared field, reserved
        ones included, in declaration order. */
    function Table(): (t: seq<Entry>)
      ensures |t| == |columns|
      ensures forall i :: 0 <= i < |t| ==> t[i] == Entry(columns[i].name, columns[i].field)
    {
      seq(|columns|, i requires 0 <= i < |columns| => Entry(columns[i].name, columns[i].field))
    }

    /** `assert_valid()`: `assert_all_valid` over `FIELDS`; `None` when it
        returns normally. */
    function AssertValid(): (r: Option<Violation>)
      ensures r.None? <==> ValidRegistry(Table(), n)
    {
      AssertAllValidIff(Table(), n);
      AssertAllValid(Table(), n)
    }
  }

  /** A value of a generated struct: the raw `T` it wraps. */
  datatype Bitfield = Bitfield(raw: nat) {

    /** `with(field, value)`: a new value with `value` packed into `field`;
        `this` itself is a value and stays as it was. Every bit of the field
        takes the matching bit of `value`'s `into_bits`, every other bit is
        copied from `this`. */
    function With<V, E>(p: PackSpec<V, E>, v: V): (r: Bitfield)
      ensures r.raw < Pow2(p.n)
      ensures forall i :: 0 <= i < p.n ==>
                Bit(r.raw, i) == if p.field.Covers(i) then Bit(p.codec.intoBits(v), i - p.field.offset)
                                 else Bit(raw, i)
    {
      Bitfield(p.Pack(v, raw))
    }

    /** `try_get(field)`: the field's bits, `(raw >> offset) & ((1 << width) - 1)`,
        handed to the value type's `try_from_bits`. */
    function TryGet<V, E>(p: PackSpec<V, E>): (r: Result<V, E>)
      ensures p.Valid() && raw < Pow2(p.n) ==>
                r == p.codec.tryFromBits((raw / Pow2(p.field.offset)) % Pow2(p.field.width))
    {
      if p.Valid() && raw < Pow2(p.n) then
        UnpackBitsIsArithmetic(p.field, raw, p.n);
        p.TryUnpack(raw)
      else p.TryUnpack(raw)
    }

    /** `get(field)`: panics exactly when `try_get` fails, and otherwise
        returns what `try_get` would. */
    function Get<V, E>(p: PackSpec<V, E>): (r: V)
      requires TryGet(p).Ok?
      ensures TryGet(p) == Ok(r)
    {
      p.Unpack(raw)
    }

    /** `new()`. */
    static function New(): Bitfield
    {
      Bitfield(0)
    }

    /** `from_bits(bits)`: wraps any `T` verbatim; nothing is checked. */
    static function FromBits(bits: nat): Bitfield
    {
      Bitfield(bits)
    }
  }

  /** Every field of `new()` holds only zero bits. */
  lemma NewIsZero<V, E>(p: PackSpec<V, E>)
    ensures forall i :: !Bit(Bitfield.New().raw, i)
    ensures p.field.UnpackBits(Bitfield.New().raw, p.n) == 0
  {
    forall i: nat
      ensures !Bit(0, i)
    {
      BitOfZero(i);
    }
    var u := p.field.UnpackBits(0, p.n);
    forall i | 0 <= i < p.n
      ensures Bit(u, i) == Bit(0, i)
    {
      BitOfZero(i);
    }
    SameBits(u, 0, p.n);
  }

  /** `from_bits` accepts every word, including ones holding bit patterns a
      field's type rejects: the rejection only surfaces when that field is
      read. */
  lemma FromBitsUnchecked<V, E>(bits: nat, p: PackSpec<V, E>)
    requires bits < Pow2(p.n) && p.Valid()
    ensures Bitfield.FromBits(bits).raw == bits
    ensures Bitfield.FromBits(bits).TryGet(p).Err? <==>
              p.codec.tryFromBits((bits / Pow2(p.field.offset)) % Pow2(p.field.width)).Err?
  {
  }

  /** `FIELDS` of the struct the macro generates from `decls`: its columns
      carry the names of the declarations and the fields their `@field` arms
      lay out, so the table is that layout, starting at bit 0 without gaps,
      one entry per declaration (reserved ones included) in declaration
      order, each as wide as declared. */
  lemma TableFollowsDecls(s: Struct, decls: seq<Decl>, es: seq<Entry>)
    requires Fields(decls, s.n) == Some(es)
    requires |s.columns| == |es| == |decls|
    requires forall i :: 0 <= i < |es| ==> s.columns[i].name == decls[i].name && s.columns[i].field == es[i].field
    ensures s.Table() == es
    ensures ContiguousFrom(s.Table(), 0) && Follows(s.Table(), decls, s.n)
  {
    LayoutShape(decls, s.n, es);
    var t := s.Table();
    forall i | 0 <= i < |es|
      ensures t[i] == es[i]
    {
      assert t[i].name == decls[i].name == es[i].name;
    }
  }

  // ---------------------------------------------------------------------
  // Reading back what was written.

  /** `get` after `with` on the same field returns the value written, for
      every value of a type that fits the field. */
  lemma GetAfterWith<V(!new), E>(b: Bitfield, p: PackSpec<V, E>, v: V)
    requires p.Valid() && Lawful(p.codec) && p.codec.intoBits(v) < Pow2(p.field.width)
    ensures b.With(p, v).TryGet(p) == Ok(v)
    ensures b.With(p, v).Get(p) == v
  {
    RoundTrip(p, v, b.raw);
  }

  /** `with` on one field leaves what every disjoint field reads unchanged. */
  lemma WithKeepsOtherFields<V, E, V2, E2>(b: Bitfield, p: PackSpec<V, E>, v: V, q: PackSpec<V2, E2>)
    requires p.Valid() && q.Valid() && p.n == q.n
    requires !Overlaps(p.field, q.field)
    ensures b.With(p, v).TryGet(q) == b.TryGet(q)
  {
    PackPreservesDisjoint(p.field, q.field, p.codec.intoBits(v), b.raw, p.n);
  }

  /** A second `with` on the same field replaces the first: nothing of the
      earlier value remains. */
  lemma WithOverwrites<V, E>(b: Bitfield, p: PackSpec<V, E>, v1: V, v2: V)
    requires p.Valid()
    ensures b.With(p, v1).With(p, v2) == b.With(p, v2)
  {
    PackOverwrites(p.field, p.codec.intoBits(v1), p.codec.intoBits(v2), b.raw, p.n);
  }

  /** `with` into two disjoint fields gives the same word in either order. */
  lemma WithCommutes<V, E, V2, E2>(b: Bitfield, p: PackSpec<V, E>, v: V, q: PackSpec<V2, E2>, w: V2)
    requires p.Valid() && q.Valid() && p.n == q.n
    requires !Overlaps(p.field, q.field)
    ensures b.With(p, v).With(q, w) == b.With(q, w).With(p, v)
  {
    PackDisjointCommute(q.field, p.field, q.codec.intoBits(w), p.codec.intoBits(v), b.raw, p.n);
  }

  /** A value whose bits are wider than its field keeps only their low
      `width` bits there; nothing spills into the neighbouring fields. */
  lemma WithTruncates<V, E>(b: Bitfield, p: PackSpec<V, E>, v: V)
    requires p.Valid()
    ensures p.field.UnpackBits(b.With(p, v).raw, p.n) == p.codec.intoBits(v) % Pow2(p.field.width)
  {
    PackThenUnpack(p.field, p.codec.intoBits(v), b.raw, p.n);
  }

  /** A value is determined by what its fields hold and by its bits above
      the last field: two values agreeing on both are the same value. */
  lemma FieldsDetermineValue(s: Struct, a: Bitfield, b: Bitfield)
    requires |s.columns| > 0 && ContiguousFrom(s.Table(), 0)
    requires forall k :: 0 <= k < |s.columns| ==> s.columns[k].field.FitsIn(s.n)
    requires a.raw < Pow2(s.n) && b.raw < Pow2(s.n)
    requires forall k :: 0 <= k < |s.columns| ==>
               s.columns[k].field.UnpackBits(a.raw, s.n) == s.columns[k].field.UnpackBits(b.raw, s.n)
    requires forall i :: s.columns[|s.columns| - 1].field.MostSignificantIndex() <= i < s.n ==>
               Bit(a.raw, i) == Bit(b.raw, i)
    ensures a == b
  {
    var es := s.Table();
    FieldBitsAgree(es, 0, a.raw, b.raw, s.n);
    SameBits(a.raw, b.raw, s.n);
  }

  /** Fields laid out without gaps from bit `start` that hold the same
      contents in two words cover bits on which the words agree. */
  lemma {:induction false} FieldBitsAgree(es: seq<Entry>, start: nat, x: nat, y: nat, n: nat)
    requires |es| > 0 && ContiguousFrom(es, start)
    requires forall k :: 0 <= k < |es| ==> es[k].field.FitsIn(n)
    requires forall k :: 0 <= k < |es| ==> es[k].field.UnpackBits(x, n) == es[k].field.UnpackBits(y, n)
    ensures forall i :: start <= i < es[|es| - 1].field.MostSignificantIndex() ==> Bit(x, i) == Bit(y, i)
    decreases |es|
  {
    var f := es[0].field;
    forall i | f.offset <= i < f.MostSignificantIndex()
      ensures Bit(x, i) == Bit(y, i)
    {
      UnpackBitsAt(f, x, n, i - f.offset);
      UnpackBitsAt(f, y, n, i - f.offset);
    }
    if |es| > 1 {
      var rest := es[1..];
      assert ContiguousFrom(rest, f.MostSignificantIndex()) by {
        forall i | 0 <= i < |rest| - 1
          ensures rest[i + 1].field.offset == rest[i].field.MostSignificantIndex()
        {
          assert rest[i + 1] == es[i + 2] && rest[i] == es[i + 1];
        }
      }
      FieldBitsAgree(rest, f.MostSignificantIndex(), x, y, n);
    }
  }

  // ---------------------------------------------------------------------
  // The `Debug` view.

  /** What `debug_struct` prints: the struct's name and its `name: value`
      entries. */
  datatype DebugStruct = DebugStruct(name: string, fields: seq<(string, string)>)

  /** `Debug`: the struct's name, then one `name: value` entry per declared
      field, reserved ones included, in declaration order; `None` where `get`
      on some field panics. */
  function Debug(s: Struct, b: Bitfield): (r: Option<DebugStruct>)
    ensures r.Some? <==>
              forall i :: 0 <= i < |s.columns| ==>
                s.columns[i].show(s.columns[i].field.UnpackBits(b.raw, s.n)).Some?
    ensures r.Some? ==>
              r.value.name == s.name &&
              |r.value.fields| == |s.columns| &&
              forall i :: 0 <= i < |s.columns| ==>
                r.value.fields[i] == (s.columns[i].name, s.columns[i].show(s.columns[i].field.UnpackBits(b.raw, s.n)).value)
  {
    match DebugEntries(s.columns, b.raw, s.n)
    case None => None
    case Some(entries) => Some(DebugStruct(s.name, entries))
  }

  function {:induction false} DebugEntries(cols: seq<Column>, raw: nat, n: nat): (r: Option<seq<(string, string)>>)
    ensures r.Some? <==>
              forall i :: 0 <= i < |cols| ==> cols[i].show(cols[i].field.UnpackBits(raw, n)).Some?
    ensures r.Some? ==>
              |r.value| == |cols| &&
              forall i :: 0 <= i < |cols| ==>
                r.value[i] == (cols[i].name, cols[i].show(cols[i].field.UnpackBits(raw, n)).value)
  {
    if |cols| == 0 then Some([])
    else
      var c := cols[0];
      match c.show(c.field.UnpackBits(raw, n))
      case None => None
      case Some(text) =>
        match DebugEntries(cols[1..], raw, n)
        case None => None
        case Some(rest) => Some([(c.name, text)] + rest)
  }

  // ---------------------------------------------------------------------
  // `set`: the same packing, in place.

  /** A bitfield held in a variable, updated in place by `set`. */
  class MutBitfield {
    var raw: nat
    const n: nat

    function Value(): Bitfield
      reads this
    {
      Bitfield(raw)
    }

    /** `new()` stored in a mutable place. */
    constructor New(n: nat)
      ensures this.n == n && Value() == Bitfield.New()
    {
      this.n := n;
      raw := 0;
    }

    /** `set(field, value)`: packs `value` into `field` of `this` in place and
        returns `this` for chaining; the new word is the one `with` builds. */
    method Set<V, E>(p: PackSpec<V, E>, v: V) returns (self: MutBitfield)
      requires p.n == n
      modifies this
      ensures self == this
      ensures Value() == old(Value()).With(p, v)
    {
      raw := p.Pack(v, raw);
      self := this;
    }
  }
}
