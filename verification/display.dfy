/** The `Display` impl of a generated struct: the raw word in binary, a ruler
    row bracketing each field's bits, and one annotation row per non-reserved
    field naming it with its value and its bits.

    The rendering is first specified as a function of the struct and the word
    (`DisplayText`); `Fmt` then writes it the way the generated code does,
    with a cursor walking the fields from the top bit down. */
module Display {
  import opened Wrappers
  import opened Word
  import opened Pack
  import opened Layout
  import opened Bitfields

  // ---------------------------------------------------------------------
  // Binary numerals.

  /** c repeated k times. */
  function Repeat(c: char, k: nat): (r: string)
    ensures |r| == k
  {
    if k == 0 then [] else Repeat(c, k - 1) + [c]
  }

  lemma RepeatChars(c: char, k: nat)
    ensures forall i :: 0 <= i < k ==> Repeat(c, k)[i] == c
  {
    forall i | 0 <= i < k
      ensures Repeat(c, k)[i] == c
    {
      RepeatAt(c, k, i);
    }
  }

  /** Every character of `Repeat(c, k)` is c. */
  lemma {:induction false} RepeatAt(c: char, k: nat, i: nat)
    requires i < k
    ensures Repeat(c, k)[i] == c
  {
    if i < k - 1 {
      RepeatAt(c, k - 1, i);
    }
  }

  function Spaces(k: nat): string
  {
    Repeat(' ', k)
  }

  function Digit(b: bool): char
  {
    if b then '1' else '0'
  }

  /** `{:b}`: the binary numeral of x, most significant digit first, with no
      leading zeros (`0` for zero). */
  function Binary(x: nat): (r: string)
    ensures |r| >= 1
    decreases x
  {
    if x < 2 then [Digit(x == 1)] else Binary(x / 2) + [Digit(x % 2 == 1)]
  }

  /** `{:0w$b}`: the binary numeral of x padded with zeros to at least w digits. */
  function PadBinary(x: nat, w: nat): string
  {
    var d := Binary(x);
    if |d| < w then Repeat('0', w - |d|) + d else d
  }

  /** The number a binary numeral denotes. */
  function ParseBinary(s: string): nat
  {
    if |s| == 0 then 0 else 2 * ParseBinary(s[..|s| - 1]) + (if s[|s| - 1] == '1' then 1 else 0)
  }

  lemma {:induction false} BinaryDigits(x: nat)
    ensures x < Pow2(|Binary(x)|)
    ensures x >= 1 ==> Pow2(|Binary(x)| - 1) <= x
    ensures forall i :: 0 <= i < |Binary(x)| ==> Binary(x)[|Binary(x)| - 1 - i] == Digit(Bit(x, i))
    decreases x
  {
    if x >= 2 {
      var d := Binary(x / 2);
      BinaryDigits(x / 2);
      assert Binary(x) == d + [Digit(x % 2 == 1)];
      forall i | 0 <= i < |Binary(x)|
        ensures Binary(x)[|Binary(x)| - 1 - i] == Digit(Bit(x, i))
      {
        if i > 0 {
          assert Binary(x)[|Binary(x)| - 1 - i] == d[|d| - 1 - (i - 1)];
        }
      }
    }
  }

  /** A number below 2^w (w >= 1) is printed with exactly w digits, digit i
      being bit w - 1 - i. */
  lemma PadBinaryBits(x: nat, w: nat)
    requires 1 <= w && x < Pow2(w)
    ensures |PadBinary(x, w)| == w
    ensures forall i :: 0 <= i < w ==> PadBinary(x, w)[i] == Digit(Bit(x, w - 1 - i))
  {
    var d := Binary(x);
    BinaryDigits(x);
    if |d| > w {
      PowMonotone(w, |d| - 1);
    }
    assert |d| <= w;
    var p := PadBinary(x, w);
    forall i | 0 <= i < w
      ensures p[i] == Digit(Bit(x, w - 1 - i))
    {
      if i < w - |d| {
        RepeatAt('0', w - |d|, i);
        BitAboveWidth(x, |d|, w - 1 - i);
      } else {
        assert p[i] == d[|d| - 1 - (w - 1 - i)];
      }
    }
  }

  lemma {:induction false} ParseBinary_Binary(x: nat)
    ensures ParseBinary(Binary(x)) == x
    decreases x
  {
    if x >= 2 {
      ParseBinary_Binary(x / 2);
      assert Binary(x)[..|Binary(x)| - 1] == Binary(x / 2);
    }
  }

  lemma {:induction false} ParseLeadingZeros(k: nat, d: string)
    ensures ParseBinary(Repeat('0', k) + d) == ParseBinary(d)
    decreases |d|
  {
    if |d| == 0 {
      assert Repeat('0', k) + d == Repeat('0', k);
      ParseZeros(k);
    } else {
      ParseLeadingZeros(k, d[..|d| - 1]);
      assert (Repeat('0', k) + d)[..|Repeat('0', k) + d| - 1] == Repeat('0', k) + d[..|d| - 1];
    }
  }

  lemma {:induction false} ParseZeros(k: nat)
    ensures ParseBinary(Repeat('0', k)) == 0
  {
    if k > 0 {
      ParseZeros(k - 1);
      assert Repeat('0', k)[..k - 1] == Repeat('0', k - 1);
    }
  }

  /** Reading the padded numeral back gives the number: padding never
      changes the value printed. */
  lemma PadBinaryRoundTrip(x: nat, w: nat)
    ensures ParseBinary(PadBinary(x, w)) == x
  {
    ParseBinary_Binary(x);
    if |Binary(x)| < w {
      ParseLeadingZeros(w - |Binary(x)|, Binary(x));
    }
  }

  // ---------------------------------------------------------------------
  // The layout the renderer draws.

  /** What the renderer needs of a struct: at least one field, fields laid
      out from bit 0 without gaps inside the word, and none of them empty
      (an empty field makes the generated code subtract past zero). */
  predicate Drawable(s: Struct)
  {
    |s.columns| >= 1 &&
    ContiguousFrom(s.Table(), 0) &&
    s.columns[|s.columns| - 1].field.MostSignificantIndex() <= s.n &&
    (forall i :: 0 <= i < |s.columns| ==> s.columns[i].field.MostSignificantIndex() <= s.n) &&
    NoEmptyField(s.columns)
  }

  predicate NoEmptyField(cols: seq<Column>)
  {
    forall i :: 0 <= i < |cols| ==> cols[i].field.width >= 1
  }

  /** A struct whose table is laid out from bit 0, fits its word and has no
      zero-width field can be drawn. */
  lemma DrawableTable(s: Struct, es: seq<Entry>)
    requires s.Table() == es && |es| >= 1 && ContiguousFrom(es, 0)
    requires forall i :: 0 <= i < |es| ==> es[i].field.MostSignificantIndex() <= s.n && es[i].field.width >= 1
    ensures Drawable(s)
  {
  }

  /** The offset of field k, or the top of the last field for k == |columns|. */
  function Base(s: Struct, k: nat): nat
    requires 1 <= |s.columns| && k <= |s.columns|
  {
    if k == |s.columns| then s.columns[k - 1].field.MostSignificantIndex() else s.columns[k].field.offset
  }

  /** Field k spans bits Base(s, k) up to Base(s, k + 1); field 0 starts at bit 0. */
  lemma BaseStep(s: Struct, k: nat)
    requires Drawable(s) && k < |s.columns|
    ensures s.columns[k].field.MostSignificantIndex() == Base(s, k + 1)
    ensures Base(s, k + 1) == Base(s, k) + s.columns[k].field.width
    ensures Base(s, 0) == 0
  {
    var t := s.Table();
    if k + 1 < |s.columns| {
      assert t[k + 1].field.offset == t[k].field.MostSignificantIndex();
    }
    assert t[0].field.offset == 0;
  }

  /** The bases grow with k. */
  lemma {:induction false} BaseMonotone(s: Struct, j: nat, k: nat)
    requires Drawable(s) && j <= k <= |s.columns|
    ensures Base(s, j) + (k - j) <= Base(s, k)
    decreases k - j
  {
    if j < k {
      BaseStep(s, j);
      BaseMonotone(s, j + 1, k);
    }
  }

  // ---------------------------------------------------------------------
  // The ruler row.

  /** The ruler segment under one field, exactly as wide as the field. */
  function Glyph(c: Column): (r: string)
    requires c.field.width >= 1
    ensures |r| == c.field.width
  {
    var w := c.field.width;
    if Reserved(c.name) then Spaces(w)
    else if w == 1 then "│"
    else if w == 2 then "└┤"
    else "└┬" + Repeat('─', w - 3) + "┘"
  }

  /** The segments of fields hi - 1 down to lo, left to right. */
  function Glyphs(cols: seq<Column>, lo: nat, hi: nat): string
    requires lo <= hi <= |cols|
    requires NoEmptyField(cols)
    decreases hi - lo
  {
    if lo == hi then "" else Glyphs(cols, lo + 1, hi) + Glyph(cols[lo])
  }

  /** The ruler: blanks above the highest field, then each field's segment
      from the most significant field down. */
  function Ruler(s: Struct): string
    requires Drawable(s)
  {
    Spaces(s.n - Base(s, |s.columns|)) + Glyphs(s.columns, 0, |s.columns|)
  }

  // ---------------------------------------------------------------------
  // Annotation rows.

  /** A field above the annotated one, as an annotation row crosses it: the
      vertical bar under its connector, blanks elsewhere. */
  function Pass(c: Column): (r: string)
    requires c.field.width >= 1
    ensures |r| == c.field.width
  {
    var w := c.field.width;
    if Reserved(c.name) then Spaces(w)
    else if w == 1 then "│"
    else " │" + Spaces(w - 2)
  }

  function Passes(cols: seq<Column>, lo: nat, hi: nat): string
    requires lo <= hi <= |cols|
    requires NoEmptyField(cols)
    decreases hi - lo
  {
    if lo == hi then "" else Passes(cols, lo + 1, hi) + Pass(cols[lo])
  }

  /** The corner that turns the annotated field's connector to the right. */
  function Corner(c: Column): string
  {
    if c.field.width == 1 then "└" else " └"
  }

  function CornerWidth(c: Column): nat
  {
    if c.field.width == 1 then 1 else 2
  }

  /** The longest name among the non-reserved fields lo .. hi - 1. */
  function MaxNameLength(cols: seq<Column>, lo: nat, hi: nat): nat
    requires lo <= hi <= |cols|
    decreases hi - lo
  {
    if lo == hi then 0
    else if Reserved(cols[lo].name) then MaxNameLength(cols, lo + 1, hi)
    else Max(|cols[lo].name|, MaxNameLength(cols, lo + 1, hi))
  }

  function Max(a: nat, b: nat): nat
  {
    if a < b then b else a
  }

  /** The column the dash runs stop short of: one when the lowest field is
      drawn, none when it is reserved. */
  function RemColumn(s: Struct): nat
    requires |s.columns| >= 1
  {
    if Reserved(s.columns[0].name) then 0 else 1
  }

  /** The dashes that lead from field t's corner to its name: the cursor
      left after the corner plus the padding of the name to the longest
      name, less `RemColumn`, and never negative. */
  function Dashes(s: Struct, t: nat): nat
    requires Drawable(s) && t < |s.columns|
  {
    var c := s.columns[t];
    var cur := c.field.MostSignificantIndex() - CornerWidth(c);
    var len := cur + (MaxNameLength(s.columns, 0, |s.columns|) - |c.name|);
    if len > RemColumn(s) then len - RemColumn(s) else 0
  }

  /** What an annotation row writes before its corner. */
  function Crossings(s: Struct, t: nat): string
    requires Drawable(s) && t < |s.columns|
  {
    Spaces(s.n - Base(s, |s.columns|)) + Passes(s.columns, t + 1, |s.columns|)
  }

  /** What follows the corner: the dashes, the name, the value and the
      field's own bits. */
  function Label(name: string, dashes: nat, value: string, digits: string): string
  {
    Repeat('─', dashes) + " " + name + ": " + value + " (" + digits + ")\n"
  }

  /** The annotation row of non-reserved field t; `None` where `get` on it
      panics. */
  function Row(s: Struct, raw: nat, t: nat): Option<string>
    requires Drawable(s) && t < |s.columns|
  {
    var c := s.columns[t];
    var bits := c.field.UnpackBits(raw, s.n);
    match c.show(bits)
    case None => None
    case Some(value) =>
      Some(Crossings(s, t) + Corner(c) + Label(c.name, Dashes(s, t), value, PadBinary(bits, c.field.width)))
  }

  /** The annotation rows of the non-reserved fields among 0 .. t - 1, in
      declaration order. */
  function Rows(s: Struct, raw: nat, t: nat): Option<string>
    requires Drawable(s) && t <= |s.columns|
  {
    if t == 0 then Some("")
    else match Rows(s, raw, t - 1)
      case None => None
      case Some(acc) =>
        if Reserved(s.columns[t - 1].name) then Some(acc)
        else match Row(s, raw, t - 1)
          case None => None
          case Some(r) => Some(acc + r)
  }

  /** The whole `Display` output; `None` where it panics. */
  function DisplayText(s: Struct, b: Bitfield): Option<string>
    requires Drawable(s)
  {
    match Rows(s, b.raw, |s.columns|)
    case None => None
    case Some(rows) => Some(PadBinary(b.raw, s.n) + "\n" + Ruler(s) + "\n" + rows)
  }

  // ---------------------------------------------------------------------
  // The generated `fmt`. Each helper method returns what its part of the
  // code writes to the formatter; the caller appends it.

  /** `for _ in 0..k { f.write_str(c) }`. */
  method WriteRepeat(c: char, k: nat) returns (r: string)
    ensures r == Repeat(c, k)
  {
    r := "";
    var i := 0;
    while i < k
      invariant 0 <= i <= k
      invariant r == Repeat(c, i)
    {
      r := r + [c];
      i := i + 1;
    }
  }

  /** `while cur_pos > top { f.write_str(" "); cur_pos -= 1 }`. */
  method PadTo(curPos: nat, top: nat) returns (pad: string, cur: nat)
    ensures curPos > top ==> cur == top && pad == Spaces(curPos - top)
    ensures curPos <= top ==> cur == curPos && pad == ""
  {
    pad, cur := "", curPos;
    while cur > top
      invariant (curPos > top ==> top <= cur) && cur <= curPos
      invariant curPos <= top ==> cur == curPos
      invariant pad == Spaces(curPos - cur)
    {
      pad := pad + " ";
      cur := cur - 1;
    }
  }

  /** The ruler's `match (name, bits)` for one field. */
  method DrawGlyph(c: Column) returns (g: string)
    requires c.field.width >= 1
    ensures g == Glyph(c)
  {
    var bits := c.field.Bits();
    if Reserved(c.name) {
      g := WriteRepeat(' ', bits);
    } else if bits == 1 {
      g := "│";
    } else if bits == 2 {
      g := "└┤";
    } else {
      var run := WriteRepeat('─', bits - 3);
      g := "└┬" + run + "┘";
    }
  }

  /** An annotation row's `match (cur_name, bits)` for a field it crosses. */
  method DrawPass(c: Column) returns (g: string)
    requires c.field.width >= 1
    ensures g == Pass(c)
  {
    var bits := c.field.Bits();
    if Reserved(c.name) {
      g := WriteRepeat(' ', bits);
    } else if bits == 1 {
      g := "│";
    } else {
      var gap := WriteRepeat(' ', bits - 2);
      g := " │" + gap;
    }
  }

  /** The blanks written before field k - 1 is reached, walking down from
      the top bit: those above the highest field, once it has been passed. */
  function Lead(s: Struct, k: nat): string
    requires Drawable(s) && k <= |s.columns|
  {
    if k == |s.columns| then "" else Spaces(s.n - Base(s, |s.columns|))
  }

  /** Walking down from the top bit, blanks are written only before the
      highest field; they then lead every later segment. */
  lemma LeadPadding(s: Struct, j: nat, body: string, pad: string)
    requires Drawable(s) && j < |s.columns|
    requires j + 1 == |s.columns| ==> body == "" && pad == Spaces(s.n - Base(s, |s.columns|))
    requires j + 1 < |s.columns| ==> pad == ""
    ensures Lead(s, j + 1) + body + pad == Lead(s, j) + body
  {
    if j + 1 < |s.columns| {
      assert Lead(s, j + 1) + body + pad == Lead(s, j + 1) + body;
    } else {
      assert Lead(s, j + 1) + body + pad == pad;
      assert Lead(s, j) + body == Lead(s, j);
    }
  }

  /** The ruler loop: the fields from the most significant down, tracking the
      longest non-reserved name and the `rem` column. */
  method DrawRuler(s: Struct) returns (ruler: string, maxLen: nat, rem: nat)
    requires Drawable(s)
    ensures ruler == Ruler(s)
    ensures maxLen == MaxNameLength(s.columns, 0, |s.columns|)
    ensures rem == RemColumn(s)
  {
    var m := |s.columns|;
    ruler := "";
    var curPos: nat := s.n;
    maxLen, rem := 0, 0;
    var k := m;
    while k > 0
      invariant 0 <= k <= m
      invariant curPos == if k == m then s.n else Base(s, k)
      invariant ruler == Lead(s, k) + Glyphs(s.columns, k, m)
      invariant maxLen == MaxNameLength(s.columns, k, m)
      invariant rem == if k == 0 then RemColumn(s) else 0
    {
      k := k - 1;
      BaseStep(s, k);
      var name := s.columns[k].name;
      var field := s.columns[k].field;
      var pad;
      pad, curPos := PadTo(curPos, field.MostSignificantIndex());
      var g := DrawGlyph(s.columns[k]);
      RulerStep(s, k, pad);
      ruler := ruler + pad + g;
      var bits := field.Bits();
      if Reserved(name) {
        curPos := curPos - bits;
        continue;
      }
      if k == 0 {
        rem := curPos - (bits - 1);
      }
      maxLen := Max(maxLen, |name|);
      curPos := curPos - field.Bits();
    }
  }

  /** One more field of the ruler loop: the padding reached before it, then
      its segment. */
  lemma RulerStep(s: Struct, k: nat, pad: string)
    requires Drawable(s) && k < |s.columns|
    requires k + 1 == |s.columns| ==> pad == Spaces(s.n - Base(s, |s.columns|))
    requires k + 1 < |s.columns| ==> pad == ""
    ensures Lead(s, k + 1) + Glyphs(s.columns, k + 1, |s.columns|) + pad + Glyph(s.columns[k])
            == Lead(s, k) + Glyphs(s.columns, k, |s.columns|)
  {
    var m := |s.columns|;
    LeadPadding(s, k, Glyphs(s.columns, k + 1, m), pad);
    AppendAssoc(Lead(s, k), Glyphs(s.columns, k + 1, m), Glyph(s.columns[k]));
  }

  /** One step of an annotation row's walk: the cursor comes down to field
      j's top bit writing blanks (only above the highest field), and the
      field's crossing follows them. */
  lemma CrossStep(s: Struct, j: nat, curPos: nat, pad: string, cur: nat)
    requires Drawable(s) && j < |s.columns|
    requires curPos == if j + 1 == |s.columns| then s.n else Base(s, j + 1)
    requires curPos > s.columns[j].field.MostSignificantIndex() ==>
               cur == s.columns[j].field.MostSignificantIndex() &&
               pad == Spaces(curPos - s.columns[j].field.MostSignificantIndex())
    requires curPos <= s.columns[j].field.MostSignificantIndex() ==> cur == curPos && pad == ""
    ensures cur == Base(s, j) + s.columns[j].field.width
    ensures Lead(s, j + 1) + Passes(s.columns, j + 1, |s.columns|) + pad
            == Lead(s, j) + Passes(s.columns, j + 1, |s.columns|)
    ensures Lead(s, j + 1) + Passes(s.columns, j + 1, |s.columns|) + pad + Pass(s.columns[j])
            == Lead(s, j) + Passes(s.columns, j, |s.columns|)
  {
    var m := |s.columns|;
    BaseStep(s, j);
    if j + 1 == m && curPos <= s.columns[j].field.MostSignificantIndex() {
      assert pad == Spaces(s.n - Base(s, m));
    }
    LeadPadding(s, j, Passes(s.columns, j + 1, m), pad);
    AppendAssoc(Lead(s, j), Passes(s.columns, j + 1, m), Pass(s.columns[j]));
  }

  /** A field above field t is a different field (the walk's `field ==
      cur_field` test stops exactly at t). */
  lemma FieldsAboveDiffer(s: Struct, t: nat, j: nat)
    requires Drawable(s) && t < j < |s.columns|
    ensures s.columns[j].field != s.columns[t].field
  {
    BaseStep(s, t);
    BaseMonotone(s, t + 1, j);
  }

  /** The walk of an annotation row from the most significant field down to
      field t, crossing each field above it; it stops at t's top bit. */
  method DrawCrossings(s: Struct, t: nat) returns (crossings: string, curPos: nat)
    requires Drawable(s) && t < |s.columns|
    ensures crossings == Crossings(s, t)
    ensures curPos == s.columns[t].field.MostSignificantIndex()
  {
    var m := |s.columns|;
    var field := s.columns[t].field;
    crossings := "";
    curPos := s.n;
    var j := m;
    while j > 0
      invariant t < j <= m
      invariant curPos == if j == m then s.n else Base(s, j)
      invariant crossings == Lead(s, j) + Passes(s.columns, j, m)
    {
      j := j - 1;
      var curField := s.columns[j].field;
      var pad, cur := PadTo(curPos, curField.MostSignificantIndex());
      CrossStep(s, j, curPos, pad, cur);
      curPos := cur;
      crossings := crossings + pad;
      if j > t {
        FieldsAboveDiffer(s, t, j);
      }
      if field == curField {
        break;
      }
      var g := DrawPass(s.columns[j]);
      crossings := crossings + g;
      curPos := curPos - curField.Bits();
    }
    assert j == t;
  }

  /** `for _ in rem..len { f.write_str("─") }`. */
  method DrawDashes(rem: nat, len: nat) returns (dashes: string)
    ensures dashes == Repeat('─', if len > rem then len - rem else 0)
  {
    dashes := "";
    var i := rem;
    while i < len
      invariant rem <= i && (i <= len || i == rem)
      invariant dashes == Repeat('─', i - rem)
    {
      dashes := dashes + "─";
      i := i + 1;
    }
  }

  /** One annotation row, for non-reserved field t. */
  method DrawRow(s: Struct, b: Bitfield, t: nat, maxLen: nat, rem: nat) returns (row: Option<string>)
    requires Drawable(s) && t < |s.columns| && !Reserved(s.columns[t].name)
    requires maxLen == MaxNameLength(s.columns, 0, |s.columns|) && rem == RemColumn(s)
    ensures row == Row(s, b.raw, t)
  {
    var name := s.columns[t].name;
    var field := s.columns[t].field;
    var crossings, curPos := DrawCrossings(s, t);
    var corner;
    var fieldBits := field.Bits();
    if fieldBits == 1 {
      corner := "└";
      curPos := curPos - 1;
    } else {
      corner := " └";
      curPos := curPos - 2;
    }
    MaxNameLengthBound(s.columns, 0, |s.columns|, t);
    var len := curPos + (maxLen - |name|);
    var dashes := DrawDashes(rem, len);
    var shown := s.columns[t].show(field.UnpackBits(b.raw, s.n));
    if shown.None? {
      return None;
    }
    var text := dashes + " " + name + ": " + shown.value + " ("
                 + PadBinary(field.UnpackBits(b.raw, s.n), fieldBits) + ")\n";
    row := Some(crossings + corner + text);
  }

  /** `Display::fmt`: `None` is the panic of a `get` inside it. */
  method Fmt(s: Struct, b: Bitfield) returns (out: Option<string>)
    requires Drawable(s) && b.raw < Pow2(s.n)
    ensures out == DisplayText(s, b)
  {
    var m := |s.columns|;
    var ruler, maxLen, rem := DrawRuler(s);
    var text := PadBinary(b.raw, s.n) + "\n" + ruler + "\n";
    ghost var ruled := text;
    ghost var acc := "";
    var t := 0;
    while t < m
      invariant 0 <= t <= m
      invariant Rows(s, b.raw, t) == Some(acc)
      invariant text == ruled + acc
    {
      RowsStep(s, b.raw, t);
      if !Reserved(s.columns[t].name) {
        var row := DrawRow(s, b, t, maxLen, rem);
        if row.None? {
          RowsStayNone(s, b.raw, t + 1, m);
          return None;
        }
        AppendAssoc(ruled, acc, row.value);
        text := text + row.value;
        acc := acc + row.value;
      }
      t := t + 1;
    }
    out := Some(text);
  }

  /** One more field of `Rows`: a reserved field adds nothing, another adds
      its row, or makes the whole text panic. */
  lemma RowsStep(s: Struct, raw: nat, t: nat)
    requires Drawable(s) && t < |s.columns| && Rows(s, raw, t).Some?
    ensures Reserved(s.columns[t].name) ==> Rows(s, raw, t + 1) == Rows(s, raw, t)
    ensures !Reserved(s.columns[t].name) && Row(s, raw, t).None? ==> Rows(s, raw, t + 1).None?
    ensures !Reserved(s.columns[t].name) && Row(s, raw, t).Some? ==>
              Rows(s, raw, t + 1) == Some(Rows(s, raw, t).value + Row(s, raw, t).value)
  {
  }

  lemma IndexRight(a: string, b: string, i: nat)
    requires |a| <= i < |a| + |b|
    ensures (a + b)[i] == b[i - |a|]
  {
  }

  lemma SliceRight(a: string, b: string, i: nat, j: nat)
    requires |a| <= i <= j <= |a| + |b|
    ensures (a + b)[i..j] == b[i - |a| .. j - |a|]
  {
  }

  lemma AppendAssoc(a: string, b: string, c: string)
    ensures (a + b) + c == a + (b + c)
  {
  }

  lemma {:induction false} MaxNameLengthBound(cols: seq<Column>, lo: nat, hi: nat, t: nat)
    requires lo <= t < hi <= |cols| && !Reserved(cols[t].name)
    ensures |cols[t].name| <= MaxNameLength(cols, lo, hi)
    decreases hi - lo
  {
    if lo < t {
      MaxNameLengthBound(cols, lo + 1, hi, t);
    }
  }

  lemma {:induction false} RowsStayNone(s: Struct, raw: nat, t: nat, u: nat)
    requires Drawable(s) && t <= u <= |s.columns| && Rows(s, raw, t).None?
    ensures Rows(s, raw, u).None?
    decreases u - t
  {
    if t < u {
      RowsStayNone(s, raw, t + 1, u);
    }
  }

  // ---------------------------------------------------------------------
  // What the rendering shows.

  lemma {:induction false} GlyphsLength(s: Struct, lo: nat, hi: nat)
    requires Drawable(s) && lo <= hi <= |s.columns|
    ensures Base(s, lo) <= Base(s, hi)
    ensures |Glyphs(s.columns, lo, hi)| == Base(s, hi) - Base(s, lo)
    decreases hi - lo
  {
    BaseMonotone(s, lo, hi);
    if lo < hi {
      BaseStep(s, lo);
      GlyphsLength(s, lo + 1, hi);
    }
  }

  lemma {:induction false} PassesLength(s: Struct, lo: nat, hi: nat)
    requires Drawable(s) && lo <= hi <= |s.columns|
    ensures Base(s, lo) <= Base(s, hi)
    ensures |Passes(s.columns, lo, hi)| == Base(s, hi) - Base(s, lo)
    decreases hi - lo
  {
    BaseMonotone(s, lo, hi);
    if lo < hi {
      BaseStep(s, lo);
      PassesLength(s, lo + 1, hi);
    }
  }

  lemma {:induction false} GlyphsSplit(cols: seq<Column>, lo: nat, k: nat, hi: nat)
    requires lo <= k < hi <= |cols|
    requires NoEmptyField(cols)
    ensures Glyphs(cols, lo, hi) == Glyphs(cols, k + 1, hi) + Glyph(cols[k]) + Glyphs(cols, lo, k)
    decreases k - lo
  {
    if lo < k {
      GlyphsSplit(cols, lo + 1, k, hi);
      var x := Glyphs(cols, k + 1, hi) + Glyph(cols[k]);
      var m := Glyphs(cols, lo + 1, k);
      var p := Glyph(cols[lo]);
      assert Glyphs(cols, lo, hi) == Glyphs(cols, lo + 1, hi) + p;
      assert Glyphs(cols, lo, k) == m + p;
      AppendAssoc(x, m, p);
    }
  }

  lemma {:induction false} PassesSplit(cols: seq<Column>, lo: nat, k: nat, hi: nat)
    requires lo <= k < hi <= |cols|
    requires NoEmptyField(cols)
    ensures Passes(cols, lo, hi) == Passes(cols, k + 1, hi) + Pass(cols[k]) + Passes(cols, lo, k)
    decreases k - lo
  {
    if lo < k {
      PassesSplit(cols, lo + 1, k, hi);
      var x := Passes(cols, k + 1, hi) + Pass(cols[k]);
      var m := Passes(cols, lo + 1, k);
      var p := Pass(cols[lo]);
      assert Passes(cols, lo, hi) == Passes(cols, lo + 1, hi) + p;
      assert Passes(cols, lo, k) == m + p;
      AppendAssoc(x, m, p);
    }
  }

  /** The ruler is exactly as wide as the word, and field k's segment sits
      under the bits k covers: after the blanks and the segments of the
      fields above k, which take up columns 0 .. n - top (column 0 holding
      the most significant bit), and before the segments of the fields
      below k. */
  lemma RulerSegment(s: Struct, k: nat)
    requires Drawable(s) && k < |s.columns|
    ensures |Ruler(s)| == s.n
    ensures |Spaces(s.n - Base(s, |s.columns|)) + Glyphs(s.columns, k + 1, |s.columns|)|
            == s.n - s.columns[k].field.MostSignificantIndex()
    ensures Ruler(s) == Spaces(s.n - Base(s, |s.columns|)) + Glyphs(s.columns, k + 1, |s.columns|)
                        + Glyph(s.columns[k]) + Glyphs(s.columns, 0, k)
  {
    var m := |s.columns|;
    var lead := Spaces(s.n - Base(s, m));
    SegmentAfterLead(s, k);
    GlyphsSplit(s.columns, 0, k, m);
    var above, g, below := Glyphs(s.columns, k + 1, m), Glyph(s.columns[k]), Glyphs(s.columns, 0, k);
    AppendAssoc(lead, above + g, below);
    AppendAssoc(lead, above, g);
  }

  /** Index i of the middle part of p + g + q. */
  lemma IndexInMiddle(p: string, g: string, q: string, i: nat)
    requires i < |g|
    ensures (p + g + q)[|p| + i] == g[i]
  {
  }

  /** Field k's segment starts after the blanks above the highest field and
      the segments of the fields above k; the whole ruler spans the word. */
  lemma SegmentAfterLead(s: Struct, k: nat)
    requires Drawable(s) && k < |s.columns|
    ensures |Spaces(s.n - Base(s, |s.columns|))| + |Glyphs(s.columns, k + 1, |s.columns|)|
            == s.n - s.columns[k].field.MostSignificantIndex()
    ensures |Ruler(s)| == s.n
  {
    BaseStep(s, k);
    GlyphsLength(s, k + 1, |s.columns|);
    GlyphsLength(s, 0, |s.columns|);
  }

  /** The character of a field's ruler segment that its annotation row hangs
      from. */
  function Connector(c: Column): char
  {
    if c.field.width == 1 then '│' else if c.field.width == 2 then '┤' else '┬'
  }

  /** The column of field k's connector: the first column of its segment
      when it is one bit wide, the second otherwise. */
  function ConnectorColumn(s: Struct, k: nat): nat
    requires Drawable(s) && k < |s.columns|
  {
    s.n - s.columns[k].field.MostSignificantIndex() + ConnectorOffset(s.columns[k])
  }

  /** Every non-reserved field shows its connector in the ruler. */
  lemma RulerConnector(s: Struct, k: nat)
    requires Drawable(s) && k < |s.columns| && !Reserved(s.columns[k].name)
    ensures ConnectorColumn(s, k) < |Ruler(s)|
    ensures Ruler(s)[ConnectorColumn(s, k)] == Connector(s.columns[k])
  {
    RulerSegment(s, k);
    var c, m := s.columns[k], |s.columns|;
    GlyphConnector(c);
    IndexInMiddle(Spaces(s.n - Base(s, m)) + Glyphs(s.columns, k + 1, m), Glyph(c), Glyphs(s.columns, 0, k),
                  ConnectorOffset(c));
  }

  /** A non-reserved field's segment carries its connector. */
  lemma GlyphConnector(c: Column)
    requires c.field.width >= 1 && !Reserved(c.name)
    ensures ConnectorOffset(c) < c.field.width && Glyph(c)[ConnectorOffset(c)] == Connector(c)
  {
    if c.field.width >= 3 {
      assert Glyph(c) == "└┬" + (Repeat('─', c.field.width - 3) + "┘");
    }
  }

  /** Row t is its crossings, its corner and its label, and the crossings
      end at the column of t's top bit. */
  lemma RowShape(s: Struct, raw: nat, t: nat)
    requires Drawable(s) && t < |s.columns| && Row(s, raw, t).Some?
    ensures |Crossings(s, t)| == s.n - s.columns[t].field.MostSignificantIndex()
    ensures |Corner(s.columns[t])| == CornerWidth(s.columns[t])
    ensures Row(s, raw, t).value == Crossings(s, t) + Corner(s.columns[t])
              + Label(s.columns[t].name, Dashes(s, t),
                      s.columns[t].show(s.columns[t].field.UnpackBits(raw, s.n)).value,
                      PadBinary(s.columns[t].field.UnpackBits(raw, s.n), s.columns[t].field.width))
  {
    BaseStep(s, t);
    PassesLength(s, t + 1, |s.columns|);
    GlyphsLength(s, 0, |s.columns|);
  }

  /** The offset of a field's connector inside its segment. */
  function ConnectorOffset(c: Column): nat
  {
    if c.field.width == 1 then 0 else 1
  }

  /** Crossing fields lo .. hi - 1, a row has a vertical bar at the
      connector of each non-reserved one. */
  lemma PassesConnector(cols: seq<Column>, lo: nat, j: nat, hi: nat)
    requires lo <= j < hi <= |cols| && !Reserved(cols[j].name)
    requires NoEmptyField(cols)
    ensures |Passes(cols, j + 1, hi)| + ConnectorOffset(cols[j]) < |Passes(cols, lo, hi)|
    ensures Passes(cols, lo, hi)[|Passes(cols, j + 1, hi)| + ConnectorOffset(cols[j])] == '│'
  {
    PassesSplit(cols, lo, j, hi);
    var above := Passes(cols, j + 1, hi);
    var g := Pass(cols[j]);
    var x := |above| + ConnectorOffset(cols[j]);
    assert g[ConnectorOffset(cols[j])] == '│';
    assert (above + g)[x] == g[ConnectorOffset(cols[j])];
    assert Passes(cols, lo, hi)[x] == (above + g)[x];
  }

  /** The crossings of row t put a vertical bar under the connector of
      every non-reserved field above t. */
  lemma CrossingsConnector(s: Struct, t: nat, j: nat)
    requires Drawable(s) && t < j < |s.columns| && !Reserved(s.columns[j].name)
    ensures ConnectorColumn(s, j) < |Crossings(s, t)|
    ensures Crossings(s, t)[ConnectorColumn(s, j)] == '│'
  {
    var m := |s.columns|;
    var sp, below := Spaces(s.n - Base(s, m)), Passes(s.columns, t + 1, m);
    var x := ConnectorColumn(s, j);
    ConnectorAfterLead(s, j);
    PassesConnector(s.columns, t + 1, j, m);
    assert |sp| <= x < |sp| + |below|;
    IndexRight(sp, below, x);
    assert Crossings(s, t) == sp + below;
    assert below[x - |sp|] == '│';
  }

  /** Field j's connector column counts the blanks above the highest field,
      the crossings of the fields above j, and the connector's offset. */
  lemma ConnectorAfterLead(s: Struct, j: nat)
    requires Drawable(s) && j < |s.columns|
    ensures ConnectorColumn(s, j)
            == |Spaces(s.n - Base(s, |s.columns|))| + |Passes(s.columns, j + 1, |s.columns|)| + ConnectorOffset(s.columns[j])
  {
    BaseStep(s, j);
    PassesLength(s, j + 1, |s.columns|);
  }

  /** In the annotation row of field t, every non-reserved field above t
      is crossed by a vertical bar exactly under its connector in the
      ruler. */
  lemma RowCrossesConnector(s: Struct, raw: nat, t: nat, j: nat)
    requires Drawable(s) && t < j < |s.columns| && !Reserved(s.columns[j].name)
    requires Row(s, raw, t).Some?
    ensures ConnectorColumn(s, j) < |Row(s, raw, t).value|
    ensures Row(s, raw, t).value[ConnectorColumn(s, j)] == '│'
  {
    RowShape(s, raw, t);
    CrossingsConnector(s, t, j);
    var head := Crossings(s, t) + Corner(s.columns[t]);
    assert Row(s, raw, t).value[ConnectorColumn(s, j)] == head[ConnectorColumn(s, j)];
  }

  /** The corner of row t sits exactly under t's connector in the ruler. */
  lemma RowCornerUnderConnector(s: Struct, raw: nat, t: nat)
    requires Drawable(s) && t < |s.columns| && Row(s, raw, t).Some?
    ensures ConnectorColumn(s, t) < |Row(s, raw, t).value|
    ensures Row(s, raw, t).value[ConnectorColumn(s, t)] == '└'
  {
    RowShape(s, raw, t);
    var r := Row(s, raw, t).value;
    var head := Crossings(s, t) + Corner(s.columns[t]);
    var c := ConnectorColumn(s, t);
    assert r[c] == head[c] == Corner(s.columns[t])[c - |Crossings(s, t)|];
  }

  /** The column of the colon after field t's name: names are padded so that
      every colon lands in column n + longest name + 1 - rem, except where
      the corner already lies further right than that leaves room for. */
  function ColonColumn(s: Struct, t: nat): nat
    requires Drawable(s) && t < |s.columns|
  {
    var c := s.columns[t];
    var aligned := s.n + MaxNameLength(s.columns, 0, |s.columns|) + 1 - RemColumn(s);
    var pushed := s.n - c.field.MostSignificantIndex() + CornerWidth(c) + 1 + |c.name|;
    if aligned > pushed then aligned else pushed
  }

  /** Inside a label, the name follows the dashes and a blank, and the
      colon follows the name. */
  lemma LabelName(name: string, dashes: nat, value: string, digits: string)
    ensures dashes + 1 + |name| < |Label(name, dashes, value, digits)|
    ensures Label(name, dashes, value, digits)[dashes + 1 + |name|] == ':'
    ensures Label(name, dashes, value, digits)[dashes + 1 .. dashes + 1 + |name|] == name
  {
    var a := Repeat('─', dashes) + " ";
    var tail := ": " + value + " (" + digits + ")\n";
    assert Label(name, dashes, value, digits) == (a + name) + tail;
    assert (a + name)[|a| .. |a| + |name|] == name;
  }

  /** The name of field t ends exactly at its colon column, and the colon
      follows it there. */
  lemma ColonAligned(s: Struct, raw: nat, t: nat)
    requires Drawable(s) && t < |s.columns| && !Reserved(s.columns[t].name)
    requires Row(s, raw, t).Some?
    ensures |s.columns[t].name| < ColonColumn(s, t) < |Row(s, raw, t).value|
    ensures Row(s, raw, t).value[ColonColumn(s, t)] == ':'
    ensures Row(s, raw, t).value[ColonColumn(s, t) - |s.columns[t].name| .. ColonColumn(s, t)] == s.columns[t].name
  {
    var c := s.columns[t];
    RowShape(s, raw, t);
    MaxNameLengthBound(s.columns, 0, |s.columns|, t);
    var head := Crossings(s, t) + Corner(c);
    var lbl := Label(c.name, Dashes(s, t), c.show(c.field.UnpackBits(raw, s.n)).value,
                       PadBinary(c.field.UnpackBits(raw, s.n), c.field.width));
    LabelName(c.name, Dashes(s, t), c.show(c.field.UnpackBits(raw, s.n)).value,
              PadBinary(c.field.UnpackBits(raw, s.n), c.field.width));
    var r := Row(s, raw, t).value;
    var at := |head| + Dashes(s, t) + 1 + |c.name|;
    assert at == ColonColumn(s, t);
    assert r == head + lbl;
    IndexRight(head, lbl, at);
    SliceRight(head, lbl, at - |c.name|, at);
  }

  /** The bits of a field, printed with as many digits as it is wide, are
      the digits of the word's numeral at the field's columns. */
  lemma FieldDigits(f: Field, raw: nat, n: nat)
    requires f.FitsIn(n) && f.width >= 1 && raw < Pow2(n)
    ensures |PadBinary(raw, n)| == n
    ensures PadBinary(f.UnpackBits(raw, n), f.width) == PadBinary(raw, n)[n - f.MostSignificantIndex() .. n - f.offset]
  {
    var u := f.UnpackBits(raw, n);
    UnpackBitsBelow(f, raw, n);
    PadBinaryBits(u, f.width);
    PadBinaryBits(raw, n);
    var lo := n - f.MostSignificantIndex();
    var p, q := PadBinary(u, f.width), PadBinary(raw, n);
    forall i | 0 <= i < f.width
      ensures p[i] == q[lo + i]
    {
      var j := f.width - 1 - i;
      UnpackBitsAt(f, raw, n, j);
      assert p[i] == Digit(Bit(u, j));
      assert q[lo + i] == Digit(Bit(raw, n - 1 - (lo + i)));
      assert n - 1 - (lo + i) == f.offset + j;
    }
    assert p == q[lo .. n - f.offset];
  }

  /** The bits printed in parentheses on field t's row are exactly the
      digits of the binary row above t's segment of the ruler. */
  lemma BitsUnderBracket(s: Struct, b: Bitfield, t: nat)
    requires Drawable(s) && t < |s.columns| && b.raw < Pow2(s.n)
    ensures |PadBinary(b.raw, s.n)| == s.n
    ensures PadBinary(s.columns[t].field.UnpackBits(b.raw, s.n), s.columns[t].field.width)
            == PadBinary(b.raw, s.n)[s.n - s.columns[t].field.MostSignificantIndex() .. s.n - s.columns[t].field.offset]
  {
    FieldDigits(s.columns[t].field, b.raw, s.n);
  }

  /** Field i is either reserved, and never read, or its bits render. */
  predicate Renders(s: Struct, raw: nat, i: nat)
    requires i < |s.columns|
  {
    Reserved(s.columns[i].name) || s.columns[i].show(s.columns[i].field.UnpackBits(raw, s.n)).Some?
  }

  /** The rows of fields 0 .. t - 1 are written without a panic exactly when
      each of those fields renders. */
  lemma {:induction false} RowsDefined(s: Struct, raw: nat, t: nat)
    requires Drawable(s) && t <= |s.columns|
    ensures Rows(s, raw, t).Some? <==> forall i :: 0 <= i < t ==> Renders(s, raw, i)
  {
    if t > 0 {
      var k := t - 1;
      RowsDefined(s, raw, k);
      if Rows(s, raw, k).Some? {
        RowsStep(s, raw, k);
      }
      assert Renders(s, raw, k) <==> Reserved(s.columns[k].name) || Row(s, raw, k).Some?;
    }
  }

  /** `Display` panics exactly when some non-reserved field holds bits its
      type rejects; reserved fields are never read. */
  lemma DisplayPanicsIff(s: Struct, b: Bitfield)
    requires Drawable(s)
    ensures DisplayText(s, b).None? <==> exists i :: 0 <= i < |s.columns| && !Renders(s, b.raw, i)
  {
    RowsDefined(s, b.raw, |s.columns|);
  }

  /** A struct whose every field renders every value that fits its width
      never panics in `Display` or `Debug`. */
  lemma TotalFieldsNeverPanic(s: Struct, b: Bitfield)
    requires Drawable(s) && b.raw < Pow2(s.n)
    requires forall i, bits: nat :: 0 <= i < |s.columns| && bits < Pow2(s.columns[i].field.width) ==>
               s.columns[i].show(bits).Some?
    ensures DisplayText(s, b).Some? && Debug(s, b).Some?
  {
    forall i | 0 <= i < |s.columns|
      ensures s.columns[i].show(s.columns[i].field.UnpackBits(b.raw, s.n)).Some? && Renders(s, b.raw, i)
    {
      UnpackBitsBelow(s.columns[i].field, b.raw, s.n);
    }
    DisplayPanicsIff(s, b);
  }
}
