/** The `FromBits<T>` capability: how a value type is turned into raw bits of
    the word type `T` and back. The trait's own source is not part of this
    model; an implementation is a value of `Codec`. */
module Codecs {
  import opened Wrappers
  import opened Word

  /** One `impl FromBits<T> for V`: `BITS`, `into_bits` and `try_from_bits`.
      Bits travel as the integer value of a `T`. */
  datatype Codec<!V, E> = Codec(bits: nat, intoBits: V -> nat, tryFromBits: nat -> Result<V, E>)

  /** What an implementation promises: `into_bits` fits in `BITS` bits and
      `try_from_bits` accepts it, giving the value back. */
  ghost predicate Lawful<V(!new), E>(c: Codec<V, E>)
  {
    forall v :: c.intoBits(v) < Pow2(c.bits) && c.tryFromBits(c.intoBits(v)) == Ok(v)
  }

  /** The unsigned integer types a bitfield can wrap. */
  newtype uint8 = x: int | 0 <= x < 0x100
  newtype uint16 = x: int | 0 <= x < 0x1_0000
  newtype uint32 = x: int | 0 <= x < 0x1_0000_0000
  newtype uint64 = x: int | 0 <= x < 0x1_0000_0000_0000_0000

  // Each integer type packs verbatim, into its own word (`FromBits<T> for T`)
  // or, for `u8`, into a wider one (the `A_BYTE: u8` field of a `u32`).
  // The argument of `try_from_bits` is a `T`; the remainder only makes the
  // conversion total on `nat`.
  function Raw8(): Codec<uint8, ()>
  {
    Codec(8, (v: uint8) => v as nat, (b: nat) => Ok((b % 0x100) as uint8))
  }

  function Raw16(): Codec<uint16, ()>
  {
    Codec(16, (v: uint16) => v as nat, (b: nat) => Ok((b % 0x1_0000) as uint16))
  }

  function Raw32(): Codec<uint32, ()>
  {
    Codec(32, (v: uint32) => v as nat, (b: nat) => Ok((b % 0x1_0000_0000) as uint32))
  }

  function Raw64(): Codec<uint64, ()>
  {
    Codec(64, (v: uint64) => v as nat, (b: nat) => Ok((b % 0x1_0000_0000_0000_0000) as uint64))
  }

  /** `bool` as a one-bit flag. */
  function Flag(): Codec<bool, ()>
  {
    Codec(1, (v: bool) => if v then 1 else 0, (b: nat) => Ok(b != 0))
  }

  lemma Pow2Values()
    ensures Pow2(1) == 2 && Pow2(8) == 0x100 && Pow2(16) == 0x1_0000
    ensures Pow2(32) == 0x1_0000_0000 && Pow2(64) == 0x1_0000_0000_0000_0000
  {
    Pow2Of64();
  }

  lemma Pow2Of8()
    ensures Pow2(1) == 2 && Pow2(8) == 0x100
  {
    assert Pow2(2) == 4;
    PowAdd(2, 2);
    PowAdd(4, 4);
  }

  lemma Pow2Of16()
    ensures Pow2(1) == 2 && Pow2(8) == 0x100 && Pow2(16) == 0x1_0000
  {
    Pow2Of8();
    PowAdd(8, 8);
  }

  lemma Pow2Of32()
    ensures Pow2(1) == 2 && Pow2(8) == 0x100 && Pow2(16) == 0x1_0000 && Pow2(32) == 0x1_0000_0000
  {
    Pow2Of16();
    PowAdd(16, 16);
  }

  lemma Pow2Of64()
    ensures Pow2(1) == 2 && Pow2(8) == 0x100 && Pow2(16) == 0x1_0000
    ensures Pow2(32) == 0x1_0000_0000 && Pow2(64) == 0x1_0000_0000_0000_0000
  {
    Pow2Of32();
    PowAdd(32, 32);
  }

  // The built-in implementations keep their promise.

  lemma Raw8Lawful()
    ensures Lawful(Raw8())
  {
    Pow2Values();
    forall v: uint8
      ensures Raw8().intoBits(v) < Pow2(8) && Raw8().tryFromBits(Raw8().intoBits(v)) == Ok(v)
    {
      assert (v as nat) % 0x100 == v as nat;
    }
  }

  lemma Raw16Lawful()
    ensures Lawful(Raw16())
  {
    Pow2Values();
    forall v: uint16
      ensures Raw16().intoBits(v) < Pow2(16) && Raw16().tryFromBits(Raw16().intoBits(v)) == Ok(v)
    {
      assert (v as nat) % 0x1_0000 == v as nat;
    }
  }

  lemma Raw32Lawful()
    ensures Lawful(Raw32())
  {
    Pow2Values();
    forall v: uint32
      ensures Raw32().intoBits(v) < Pow2(32) && Raw32().tryFromBits(Raw32().intoBits(v)) == Ok(v)
    {
      assert (v as nat) % 0x1_0000_0000 == v as nat;
    }
  }

  lemma Raw64Lawful()
    ensures Lawful(Raw64())
  {
    Pow2Values();
    forall v: uint64
      ensures Raw64().intoBits(v) < Pow2(64) && Raw64().tryFromBits(Raw64().intoBits(v)) == Ok(v)
    {
      assert (v as nat) % 0x1_0000_0000_0000_0000 == v as nat;
    }
  }

  lemma FlagLawful()
    ensures Lawful(Flag())
  {
    forall v: bool
      ensures Flag().intoBits(v) < Pow2(1) && Flag().tryFromBits(Flag().intoBits(v)) == Ok(v)
    {
    }
  }

  /** `Debug` of the integer types: the decimal numeral of the value. */
  function Decimal(x: nat): (r: string)
    ensures |r| >= 1
    decreases x
  {
    var d := "0123456789"[x % 10];
    if x < 10 then [d] else Decimal(x / 10) + [d]
  }

  function ShowU8(v: uint8): string
  {
    Decimal(v as nat)
  }

  function ShowU16(v: uint16): string
  {
    Decimal(v as nat)
  }

  function ShowU32(v: uint32): string
  {
    Decimal(v as nat)
  }

  /** `Debug` of `bool`. */
  function ShowBool(v: bool): string
  {
    if v then "true" else "false"
  }
}
