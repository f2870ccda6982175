/** Packing specs (`Pack8` … `PackUsize`): a field of `width` bits starting at
    bit `offset` of an n-bit word. Their source is not part of this model; they
    are specified here by the mask-and-shift arithmetic they perform. */
module Pack {
  import opened Wrappers
  import opened Word
  import opened Codecs

  /** A packing spec with its value type erased to the raw word, as the
      `FIELDS` table stores it (`typed()`). */
  datatype Field = Field(offset: nat, width: nat) {

    /** `most_significant_index()`: one past the field's highest bit. */
    function MostSignificantIndex(): nat
    {
      offset + width
    }

    /** `bits()`. */
    function Bits(): nat
    {
      width
    }

    /** The field lies inside an n-bit word. */
    predicate FitsIn(n: nat)
    {
      offset + width <= n
    }

    /** Bit i of the word belongs to this field. */
    predicate Covers(i: nat)
    {
      offset <= i < offset + width
    }

    /** `((1 << width) - 1) << offset`. */
    function Mask(n: nat): nat
    {
      Shl(LowMask(width, n), offset, n)
    }

    /** `pack`: `(raw & !mask) | ((value << offset) & mask)`. */
    function PackBits(value: nat, raw: nat, n: nat): nat
    {
      var mask := Mask(n);
      Or(And(raw, Not(mask, n), n), And(Shl(value, offset, n), mask, n), n)
    }

    /** `unpack_bits`: `(raw & mask) >> offset`. */
    function UnpackBits(raw: nat, n: nat): nat
    {
      Shr(And(raw, Mask(n), n), offset, n)
    }

    // The layout chain (`bitfield!`'s `@field` arms).

    /** `next(width)`: the field right above this one. */
    function Next(w: nat): Field
    {
      Field(offset + width, w)
    }

    /** `remaining()`: every bit above this field, up to the top of the word. */
    function Remaining(n: nat): Field
      requires FitsIn(n)
    {
      Field(offset + width, n - (offset + width))
    }
  }

  /** `least_significant(width)` and `first()`: a field at bit 0. */
  function LeastSignificant(w: nat): Field
  {
    Field(0, w)
  }

  /** A typed packing spec: a field of an n-bit word holding a `V`. */
  datatype PackSpec<!V, E> = PackSpec(n: nat, field: Field, codec: Codec<V, E>) {

    predicate Valid()
    {
      field.FitsIn(n)
    }

    /** `pack(value, raw)`. */
    function Pack(value: V, raw: nat): nat
    {
      field.PackBits(codec.intoBits(value), raw, n)
    }

    /** `try_unpack(raw)`. */
    function TryUnpack(raw: nat): Result<V, E>
    {
      codec.tryFromBits(field.UnpackBits(raw, n))
    }

    /** `unpack(raw)`, which panics exactly when `try_unpack` fails. */
    function Unpack(raw: nat): V
      requires TryUnpack(raw).Ok?
    {
      TryUnpack(raw).value
    }

    /** `typed()`: erase the value type. */
    function Typed(): Field
    {
      field
    }

    /** `then::<V2>()`: the next field, as wide as `V2::BITS`. */
    function Then<V2, E2>(c: Codec<V2, E2>): PackSpec<V2, E2>
    {
      PackSpec(n, field.Next(c.bits), c)
    }

    /** `next(width)`: the next field, holding raw integer bits. */
    function NextRaw<R, E2>(w: nat, raw: Codec<R, E2>): PackSpec<R, E2>
    {
      PackSpec(n, field.Next(w), raw)
    }

    /** `remaining()`, holding raw integer bits. */
    function RemainingRaw<R, E2>(raw: Codec<R, E2>): PackSpec<R, E2>
      requires Valid()
    {
      PackSpec(n, field.Remaining(n), raw)
    }
  }

  /** `first::<V>()` in an n-bit word. */
  function First<V, E>(n: nat, c: Codec<V, E>): PackSpec<V, E>
  {
    PackSpec(n, LeastSignificant(c.bits), c)
  }

  /** `least_significant(width)` holding raw integer bits of the n-bit word. */
  function FirstRaw<R, E>(n: nat, w: nat, raw: Codec<R, E>): PackSpec<R, E>
  {
    PackSpec(n, LeastSignificant(w), raw)
  }

  // ---------------------------------------------------------------------
  // What packing does to the bits of the word.

  /** Packing writes the low `width` bits of the value into the field and
      leaves every other bit of the word as it was. */
  lemma PackBitsAt(f: Field, value: nat, raw: nat, n: nat, i: nat)
    requires f.FitsIn(n) && i < n
    ensures Bit(f.PackBits(value, raw, n), i)
         == if f.Covers(i) then Bit(value, i - f.offset) else Bit(raw, i)
  {
  }

  /** Reading a field back gives the low `width` bits of what was packed:
      a value wider than the field is truncated, never spilled. */
  lemma PackThenUnpack(f: Field, value: nat, raw: nat, n: nat)
    requires f.FitsIn(n)
    ensures f.UnpackBits(f.PackBits(value, raw, n), n) == value % Pow2(f.width)
  {
    var r := f.UnpackBits(f.PackBits(value, raw, n), n);
    forall i | 0 <= i < n
      ensures Bit(r, i) == Bit(And(value, LowMask(f.width, n), n), i)
    {
      if i < f.width {
        PackBitsAt(f, value, raw, n, i + f.offset);
      }
    }
    SameBits(r, And(value, LowMask(f.width, n), n), n);
    AndLowMaskIsMod(value, f.width, n);
  }

  /** `unpack_bits` is `(raw / 2^offset) % 2^width`. */
  lemma UnpackBitsIsArithmetic(f: Field, raw: nat, n: nat)
    requires f.FitsIn(n) && raw < Pow2(n)
    ensures f.UnpackBits(raw, n) == (raw / Pow2(f.offset)) % Pow2(f.width)
  {
    var q := Shr(raw, f.offset, n);
    forall i | 0 <= i < n
      ensures Bit(f.UnpackBits(raw, n), i) == Bit(And(q, LowMask(f.width, n), n), i)
    {
    }
    SameBits(f.UnpackBits(raw, n), And(q, LowMask(f.width, n), n), n);
    ShrIsDiv(raw, f.offset, n);
    AndLowMaskIsMod(q, f.width, n);
  }

  /** A field's contents fit in its width. */
  lemma UnpackBitsBelow(f: Field, raw: nat, n: nat)
    requires f.FitsIn(n) && raw < Pow2(n)
    ensures f.UnpackBits(raw, n) < Pow2(f.width)
  {
    UnpackBitsIsArithmetic(f, raw, n);
  }

  /** Bit i of a field's contents is bit offset + i of the word. */
  lemma UnpackBitsAt(f: Field, raw: nat, n: nat, i: nat)
    requires f.FitsIn(n)
    ensures Bit(f.UnpackBits(raw, n), i) == (i < f.width && Bit(raw, f.offset + i))
  {
    if i >= n {
      BitAboveWidth(f.UnpackBits(raw, n), n, i);
    }
  }

  /** A second pack into the same field replaces the first entirely: the old
      contents are cleared, nothing accumulates. */
  lemma PackOverwrites(f: Field, v1: nat, v2: nat, raw: nat, n: nat)
    requires f.FitsIn(n)
    ensures f.PackBits(v2, f.PackBits(v1, raw, n), n) == f.PackBits(v2, raw, n)
  {
    forall i | 0 <= i < n
      ensures Bit(f.PackBits(v2, f.PackBits(v1, raw, n), n), i) == Bit(f.PackBits(v2, raw, n), i)
    {
      PackBitsAt(f, v2, f.PackBits(v1, raw, n), n, i);
      PackBitsAt(f, v1, raw, n, i);
      PackBitsAt(f, v2, raw, n, i);
    }
    SameBits(f.PackBits(v2, f.PackBits(v1, raw, n), n), f.PackBits(v2, raw, n), n);
  }

  /** Packing the same value twice is packing it once. */
  lemma PackIdempotent(f: Field, v: nat, raw: nat, n: nat)
    requires f.FitsIn(n)
    ensures f.PackBits(v, f.PackBits(v, raw, n), n) == f.PackBits(v, raw, n)
  {
    PackOverwrites(f, v, v, raw, n);
  }

  /** Two fields that share no bit can be packed in either order. */
  lemma PackDisjointCommute(f: Field, g: Field, x: nat, y: nat, raw: nat, n: nat)
    requires f.FitsIn(n) && g.FitsIn(n)
    requires f.offset + f.width <= g.offset || g.offset + g.width <= f.offset
    ensures f.PackBits(x, g.PackBits(y, raw, n), n) == g.PackBits(y, f.PackBits(x, raw, n), n)
  {
    var a := f.PackBits(x, g.PackBits(y, raw, n), n);
    var b := g.PackBits(y, f.PackBits(x, raw, n), n);
    forall i | 0 <= i < n
      ensures Bit(a, i) == Bit(b, i)
    {
      PackBitsAt(f, x, g.PackBits(y, raw, n), n, i);
      PackBitsAt(g, y, raw, n, i);
      PackBitsAt(g, y, f.PackBits(x, raw, n), n, i);
      PackBitsAt(f, x, raw, n, i);
    }
    SameBits(a, b, n);
  }

  /** Packing a field leaves what every disjoint field reads unchanged. */
  lemma PackPreservesDisjoint(f: Field, g: Field, x: nat, raw: nat, n: nat)
    requires f.FitsIn(n) && g.FitsIn(n)
    requires f.offset + f.width <= g.offset || g.offset + g.width <= f.offset
    ensures g.UnpackBits(f.PackBits(x, raw, n), n) == g.UnpackBits(raw, n)
  {
    forall i | 0 <= i < n
      ensures Bit(g.UnpackBits(f.PackBits(x, raw, n), n), i) == Bit(g.UnpackBits(raw, n), i)
    {
      UnpackBitsAt(g, f.PackBits(x, raw, n), n, i);
      UnpackBitsAt(g, raw, n, i);
      if i < g.width {
        PackBitsAt(f, x, raw, n, g.offset + i);
      }
    }
    SameBits(g.UnpackBits(f.PackBits(x, raw, n), n), g.UnpackBits(raw, n), n);
  }

  // ---------------------------------------------------------------------
  // Typed packing specs.

  /** Round trip: a value whose bits fit the field is read back unchanged by
      `try_unpack`, whatever the word held before. */
  lemma RoundTrip<V(!new), E>(p: PackSpec<V, E>, v: V, raw: nat)
    requires p.Valid() && Lawful(p.codec)
    requires p.codec.intoBits(v) < Pow2(p.field.width)
    ensures p.TryUnpack(p.Pack(v, raw)) == Ok(v)
  {
    PackThenUnpack(p.field, p.codec.intoBits(v), raw, p.n);
    RemOfSmall(p.codec.intoBits(v), p.field.width);
    RemIsMod(p.codec.intoBits(v), p.field.width);
  }

  /** A field declared with a value type (`first`, `then`) is exactly as wide
      as the type's `BITS`, so every value round-trips. */
  lemma TypedRoundTrip<V(!new), E>(p: PackSpec<V, E>, v: V, raw: nat)
    requires p.Valid() && Lawful(p.codec) && p.field.width == p.codec.bits
    ensures p.TryUnpack(p.Pack(v, raw)) == Ok(v)
  {
    RoundTrip(p, v, raw);
  }
}
