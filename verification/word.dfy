/** The unsigned integer a bitfield wraps: a natural number below 2^n, where n
    is `T::BITS` of one of `u8`, `u16`, `u32`, `u64` or `usize`. The bitwise
    operators the packing specs use (`&`, `|`, `!`, `<<`, `>>`) are defined
    through the number's bits, and each is related to ordinary arithmetic. */
module Word {

  /** 2^k. */
  function Pow2(k: nat): (r: nat)
    ensures r >= 1
  {
    if k == 0 then 1 else 2 * Pow2(k - 1)
  }

  /** Bit i of x; bit 0 is the least significant. */
  function Bit(x: nat, i: nat): bool
  {
    if i == 0 then x % 2 == 1 else Bit(x / 2, i - 1)
  }

  /** A bit string, least significant bit first. */
  type Bits = seq<bool>

  /** The low n bits of x. */
  function BitsOf(x: nat, n: nat): (r: Bits)
    ensures |r| == n
    ensures forall i :: 0 <= i < n ==> r[i] == Bit(x, i)
  {
    if n == 0 then [] else [x % 2 == 1] + BitsOf(x / 2, n - 1)
  }

  /** The natural number whose bits are b. */
  function ValueOf(b: Bits): (r: nat)
    ensures r < Pow2(|b|)
    ensures forall i :: 0 <= i < |b| ==> Bit(r, i) == b[i]
  {
    if |b| == 0 then 0
    else
      var rest := ValueOf(b[1..]);
      assert forall i :: 1 <= i < |b| ==> Bit(rest, i - 1) == b[i];
      (if b[0] then 1 else 0) + 2 * rest
  }

  // ---------------------------------------------------------------------
  // Arithmetic facts about halving, used to relate bits to / and %.

  lemma {:induction false} MulAtLeast(d: nat, k: nat)
    requires k >= 1
    ensures d * k >= d
  {
    if k > 1 {
      MulAtLeast(d, k - 1);
      assert d * k == d * (k - 1) + d;
    }
  }

  lemma Distribute(d: nat, a: nat, b: nat)
    ensures d * (a + b) == d * a + d * b
  {
  }

  /** Quotient and remainder are determined by x == d * q + r, 0 <= r < d. */
  lemma DivModUnique(x: nat, d: nat, q: nat, r: nat)
    requires 0 <= r < d && x == d * q + r
    ensures x / d == q && x % d == r
  {
    var q', r' := x / d, x % d;
    assert x == d * q' + r';
    if q' < q {
      Distribute(d, q', q - q');
      MulAtLeast(d, q - q');
      assert false;
    } else if q' > q {
      Distribute(d, q, q' - q);
      MulAtLeast(d, q' - q);
      assert false;
    }
  }

  /** A quotient by a positive divisor is at most the dividend. */
  lemma DivAtMost(x: nat, d: nat)
    requires d >= 1
    ensures x / d <= x
  {
    var q := x / d;
    assert x == d * q + x % d;
    if q >= 1 {
      MulAtLeast(q, d);
      assert q * d == d * q;
    }
  }

  /** Dividing by 2^(k+1) is halving, then dividing by 2^k. */
  lemma DivStep(x: nat, k: nat)
    ensures x / Pow2(k + 1) == (x / 2) / Pow2(k)
    ensures x % Pow2(k + 1) == x % 2 + 2 * ((x / 2) % Pow2(k))
  {
    var p := Pow2(k);
    var q, r := (x / 2) / p, (x / 2) % p;
    assert x / 2 == p * q + r;
    assert x == (2 * p) * q + (2 * r + x % 2);
    DivModUnique(x, 2 * p, q, 2 * r + x % 2);
  }

  // ---------------------------------------------------------------------
  // Bits as digits of the number.

  /** x / 2^k, computed by halving k times. */
  function Quot(x: nat, k: nat): nat
  {
    if k == 0 then x else Quot(x / 2, k - 1)
  }

  /** x % 2^w, computed digit by digit. */
  function Rem(x: nat, w: nat): nat
  {
    if w == 0 then 0 else x % 2 + 2 * Rem(x / 2, w - 1)
  }

  lemma {:induction false} QuotIsDiv(x: nat, k: nat)
    ensures Quot(x, k) == x / Pow2(k)
    ensures Quot(x, k) <= x
  {
    if k > 0 {
      DivStep(x, k - 1);
      QuotIsDiv(x / 2, k - 1);
    }
  }

  lemma {:induction false} RemIsMod(x: nat, w: nat)
    ensures Rem(x, w) == x % Pow2(w)
  {
    if w > 0 {
      DivStep(x, w - 1);
      RemIsMod(x / 2, w - 1);
    }
  }

  /** Bit i of x / 2^k is bit i + k of x: `>>` moves bits down. */
  lemma {:induction false} BitOfQuot(x: nat, k: nat, i: nat)
    ensures Bit(Quot(x, k), i) == Bit(x, i + k)
    decreases k
  {
    if k > 0 {
      BitOfQuot(x / 2, k - 1, i);
    }
  }

  /** Bit i of x % 2^w is bit i of x below w and clear from w on. */
  lemma {:induction false} BitOfRem(x: nat, w: nat, i: nat)
    ensures Bit(Rem(x, w), i) == (i < w && Bit(x, i))
    decreases w
  {
    if w == 0 {
      BitOfZero(i);
    } else if i > 0 {
      var m := Rem(x / 2, w - 1);
      assert (x % 2 + 2 * m) / 2 == m;
      BitOfRem(x / 2, w - 1, i - 1);
    }
  }

  lemma {:induction false} RemBelow(x: nat, w: nat)
    ensures Rem(x, w) < Pow2(w)
  {
    if w > 0 {
      RemBelow(x / 2, w - 1);
    }
  }

  lemma {:induction false} BitOfZero(i: nat)
    ensures !Bit(0, i)
  {
    if i > 0 {
      BitOfZero(i - 1);
    }
  }

  /** A number below 2^n has no bit set at or above n. */
  lemma {:induction false} BitAboveWidth(x: nat, n: nat, i: nat)
    requires x < Pow2(n) && n <= i
    ensures !Bit(x, i)
  {
    if n == 0 {
      assert x == 0;
      BitOfZero(i);
    } else {
      BitAboveWidth(x / 2, n - 1, i - 1);
    }
  }

  /** Reading back the bits of a number below 2^n gives the number. */
  lemma {:induction false} ValueOfBitsOf(x: nat, n: nat)
    requires x < Pow2(n)
    ensures ValueOf(BitsOf(x, n)) == x
  {
    if n > 0 {
      var b := BitsOf(x, n);
      assert b[1..] == BitsOf(x / 2, n - 1);
      ValueOfBitsOf(x / 2, n - 1);
    }
  }

  /** Two numbers below 2^n with the same n low bits are equal. */
  lemma SameBits(x: nat, y: nat, n: nat)
    requires x < Pow2(n) && y < Pow2(n)
    requires forall i :: 0 <= i < n ==> Bit(x, i) == Bit(y, i)
    ensures x == y
  {
    assert BitsOf(x, n) == BitsOf(y, n);
    ValueOfBitsOf(x, n);
    ValueOfBitsOf(y, n);
  }

  // ---------------------------------------------------------------------
  // The operators of an n-bit unsigned integer.

  /** `a & b`. */
  function And(a: nat, b: nat, n: nat): (r: nat)
    ensures r < Pow2(n)
    ensures forall i :: 0 <= i < n ==> Bit(r, i) == (Bit(a, i) && Bit(b, i))
  {
    ValueOf(seq(n, i requires 0 <= i < n => Bit(a, i) && Bit(b, i)))
  }

  /** `a | b`. */
  function Or(a: nat, b: nat, n: nat): (r: nat)
    ensures r < Pow2(n)
    ensures forall i :: 0 <= i < n ==> Bit(r, i) == (Bit(a, i) || Bit(b, i))
  {
    ValueOf(seq(n, i requires 0 <= i < n => Bit(a, i) || Bit(b, i)))
  }

  /** `!a`. */
  function Not(a: nat, n: nat): (r: nat)
    ensures r < Pow2(n)
    ensures forall i :: 0 <= i < n ==> Bit(r, i) == !Bit(a, i)
  {
    ValueOf(seq(n, i requires 0 <= i < n => !Bit(a, i)))
  }

  /** `a << k`: bits shifted past the top are lost. */
  function Shl(a: nat, k: nat, n: nat): (r: nat)
    ensures r < Pow2(n)
    ensures forall i :: 0 <= i < n ==> Bit(r, i) == (k <= i && Bit(a, i - k))
  {
    ValueOf(seq(n, i requires 0 <= i < n => k <= i && Bit(a, i - k)))
  }

  /** `a >> k`. */
  function Shr(a: nat, k: nat, n: nat): (r: nat)
    ensures r < Pow2(n)
    ensures forall i :: 0 <= i < n ==> Bit(r, i) == (i + k < n && Bit(a, i + k))
  {
    ValueOf(seq(n, i requires 0 <= i < n => i + k < n && Bit(a, i + k)))
  }

  /** `(1 << w) - 1`: the w low bits set. */
  function LowMask(w: nat, n: nat): (r: nat)
    ensures r < Pow2(n)
    ensures forall i :: 0 <= i < n ==> Bit(r, i) == (i < w)
  {
    ValueOf(seq(n, i requires 0 <= i < n => i < w))
  }

  // ---------------------------------------------------------------------
  // The bitwise operators agree with arithmetic.

  /** On an n-bit number, `a >> k` is `a / 2^k`. */
  lemma ShrIsDiv(a: nat, k: nat, n: nat)
    requires a < Pow2(n)
    ensures Shr(a, k, n) == a / Pow2(k)
  {
    QuotIsDiv(a, k);
    ShrIsQuot(a, k, n);
  }

  lemma ShrIsQuot(a: nat, k: nat, n: nat)
    requires a < Pow2(n)
    ensures Shr(a, k, n) == Quot(a, k)
  {
    QuotIsDiv(a, k);
    forall i | 0 <= i < n
      ensures Bit(Shr(a, k, n), i) == Bit(Quot(a, k), i)
    {
      BitOfQuot(a, k, i);
      if i + k >= n {
        BitAboveWidth(a, n, i + k);
      }
    }
    SameBits(Shr(a, k, n), Quot(a, k), n);
  }

  /** `a & ((1 << w) - 1)` is `a % 2^w`. */
  lemma AndLowMaskIsMod(a: nat, w: nat, n: nat)
    requires w <= n
    ensures And(a, LowMask(w, n), n) == a % Pow2(w)
  {
    RemIsMod(a, w);
    AndLowMaskIsRem(a, w, n);
  }

  lemma AndLowMaskIsRem(a: nat, w: nat, n: nat)
    requires w <= n
    ensures And(a, LowMask(w, n), n) == Rem(a, w)
  {
    RemBelow(a, w);
    PowMonotone(w, n);
    forall i | 0 <= i < n
      ensures Bit(And(a, LowMask(w, n), n), i) == Bit(Rem(a, w), i)
    {
      BitOfRem(a, w, i);
    }
    SameBits(And(a, LowMask(w, n), n), Rem(a, w), n);
  }

  /** A number below 2^w keeps all its bits under `& ((1 << w) - 1)`. */
  lemma AndLowMaskFits(a: nat, w: nat, n: nat)
    requires a < Pow2(w) && w <= n
    ensures And(a, LowMask(w, n), n) == a
  {
    RemOfSmall(a, w);
    AndLowMaskIsRem(a, w, n);
  }

  lemma {:induction false} RemOfSmall(a: nat, w: nat)
    requires a < Pow2(w)
    ensures Rem(a, w) == a
  {
    if w > 0 {
      RemOfSmall(a / 2, w - 1);
    }
  }

  lemma {:induction false} PowAdd(a: nat, b: nat)
    ensures Pow2(a + b) == Pow2(a) * Pow2(b)
    decreases a
  {
    if a > 0 {
      PowAdd(a - 1, b);
    }
  }

  lemma {:induction false} PowMonotone(a: nat, b: nat)
    requires a <= b
    ensures Pow2(a) <= Pow2(b)
    decreases b
  {
    if a < b {
      PowMonotone(a, b - 1);
    }
  }
}
