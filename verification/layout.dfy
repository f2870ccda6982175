/** The field layout `bitfield!` builds from a struct's declarations (the
    `@field` arms): fields are laid out from bit 0 upwards in declaration
    order, each one starting where the previous one ends, and collected in
    that order into the `FIELDS` table. */
module Layout {
  import opened Wrappers
  import opened Pack

  /** How a declaration gives its width. */
  datatype Width =
    | Literal(w: nat)    // `const NAME = w;`: w raw bits of the word
    | Typed(bits: nat)   // `const NAME: V;`: `V::BITS` bits holding a `V`
    | Rest               // `const NAME = ..;`: every bit left above

  /** One `const` declaration in the macro's body. */
  datatype Decl = Decl(name: string, width: Width)

  /** One row of the `FIELDS` table: the field's name and its erased spec. */
  datatype Entry = Entry(name: string, field: Field)

  /** Names starting with `_` mark reserved bits. */
  predicate Reserved(name: string)
  {
    |name| > 0 && name[0] == '_'
  }

  /** The width a declaration with an explicit width or type asks for. */
  function DeclaredWidth(d: Decl): nat
    requires !d.width.Rest?
  {
    match d.width
    case Literal(w) => w
    case Typed(b) => b
  }

  /** The sum of the declared widths of a run of declarations. */
  function SumWidths(decls: seq<Decl>): nat
    requires forall i :: 0 <= i < |decls| ==> !decls[i].width.Rest?
  {
    if |decls| == 0 then 0 else SumWidths(decls[..|decls| - 1]) + DeclaredWidth(decls[|decls| - 1])
  }

  function Cons(e: Entry, rest: Option<seq<Entry>>): Option<seq<Entry>>
  {
    match rest
    case None => None
    case Some(es) => Some([e] + es)
  }

  /** The `@field<T>, prev: Prev:` arms: lay out `decls` above `prev`.
      `= ..` is only accepted as the very last declaration (its arm takes no
      further tokens), and `remaining()` of a field that already passes the
      top of the word has no width to give. */
  function Chain(prev: Field, decls: seq<Decl>, n: nat): Option<seq<Entry>>
    decreases |decls|
  {
    if |decls| == 0 then Some([])
    else
      var d := decls[0];
      match d.width
      case Rest =>
        if |decls| == 1 && prev.FitsIn(n) then Some([Entry(d.name, prev.Remaining(n))]) else None
      case Literal(w) =>
        Cons(Entry(d.name, prev.Next(w)), Chain(prev.Next(w), decls[1..], n))
      case Typed(b) =>
        Cons(Entry(d.name, prev.Next(b)), Chain(prev.Next(b), decls[1..], n))
  }

  /** The `@field<T>:` arms: the first declaration is laid out at bit 0
      (`least_significant(w)` or `first()`); a struct needs at least one
      declaration and cannot start with `= ..`. `None` is a declaration list
      the macro does not accept. */
  function Fields(decls: seq<Decl>, n: nat): Option<seq<Entry>>
  {
    if |decls| == 0 then None
    else
      var d := decls[0];
      match d.width
      case Rest => None
      case Literal(w) =>
        Cons(Entry(d.name, LeastSignificant(w)), Chain(LeastSignificant(w), decls[1..], n))
      case Typed(b) =>
        Cons(Entry(d.name, LeastSignificant(b)), Chain(LeastSignificant(b), decls[1..], n))
  }

  // ---------------------------------------------------------------------
  // The shape of a laid-out table.

  /** Fields follow each other without gaps, from bit `start` upwards. */
  predicate ContiguousFrom(es: seq<Entry>, start: nat)
  {
    (|es| > 0 ==> es[0].field.offset == start) &&
    forall i :: 0 <= i < |es| - 1 ==> es[i + 1].field.offset == es[i].field.MostSignificantIndex()
  }

  /** The table lays out `decls`: same names in the same order, each field
      as wide as declared, and a `= ..` field (only ever last) reaching the
      top of the n-bit word. */
  predicate Follows(es: seq<Entry>, decls: seq<Decl>, n: nat)
  {
    |es| == |decls| &&
    (forall i :: 0 <= i < |es| ==> es[i].name == decls[i].name) &&
    (forall i :: 0 <= i < |es| && !decls[i].width.Rest? ==> es[i].field.width == DeclaredWidth(decls[i])) &&
    (forall i :: 0 <= i < |es| && decls[i].width.Rest? ==> i == |es| - 1 && es[i].field.MostSignificantIndex() == n)
  }

  /** A declaration list the macro accepts. */
  predicate Accepted(decls: seq<Decl>, n: nat)
  {
    |decls| > 0 &&
    (forall i :: 0 <= i < |decls| - 1 ==> !decls[i].width.Rest?) &&
    !decls[0].width.Rest? &&
    (decls[|decls| - 1].width.Rest? ==> SumWidths(decls[..|decls| - 1]) <= n)
  }

  lemma {:induction false} ChainShape(prev: Field, decls: seq<Decl>, n: nat, es: seq<Entry>)
    requires Chain(prev, decls, n) == Some(es)
    ensures ContiguousFrom(es, prev.MostSignificantIndex())
    ensures Follows(es, decls, n)
    decreases |decls|
  {
    if |decls| > 0 && !decls[0].width.Rest? {
      var next := prev.Next(if decls[0].width.Literal? then decls[0].width.w else decls[0].width.bits);
      var rest :| Chain(next, decls[1..], n) == Some(rest) && es == [Entry(decls[0].name, next)] + rest;
      ChainShape(next, decls[1..], n, rest);
      ConsShape(Entry(decls[0].name, next), rest, decls, n);
    }
  }

  /** An entry as wide as the first declaration, followed by a table laid
      out from the rest of them just above it. */
  lemma ConsShape(e: Entry, rest: seq<Entry>, decls: seq<Decl>, n: nat)
    requires |decls| > 0 && !decls[0].width.Rest?
    requires e.name == decls[0].name && e.field.width == DeclaredWidth(decls[0])
    requires ContiguousFrom(rest, e.field.MostSignificantIndex()) && Follows(rest, decls[1..], n)
    ensures ContiguousFrom([e] + rest, e.field.offset) && Follows([e] + rest, decls, n)
  {
    var es := [e] + rest;
    assert forall i :: 1 <= i < |es| ==> es[i] == rest[i - 1];
  }

  /** The first field of a table starts at bit 0, each later one starts one
      bit past the previous one's most significant bit, and the table has
      one entry per declaration, in declaration order. */
  lemma LayoutShape(decls: seq<Decl>, n: nat, es: seq<Entry>)
    requires Fields(decls, n) == Some(es)
    ensures ContiguousFrom(es, 0)
    ensures Follows(es, decls, n)
  {
    var d := decls[0];
    var first := LeastSignificant(if d.width.Literal? then d.width.w else d.width.bits);
    var rest :| Chain(first, decls[1..], n) == Some(rest) && es == [Entry(d.name, first)] + rest;
    ChainShape(first, decls[1..], n, rest);
    ConsShape(Entry(d.name, first), rest, decls, n);
  }

  lemma {:induction false} ChainDefined(prev: Field, decls: seq<Decl>, n: nat)
    requires forall i :: 0 <= i < |decls| - 1 ==> !decls[i].width.Rest?
    requires |decls| > 0 && decls[|decls| - 1].width.Rest? ==>
               prev.MostSignificantIndex() + SumWidths(decls[..|decls| - 1]) <= n
    ensures Chain(prev, decls, n).Some?
    decreases |decls|
  {
    if |decls| > 1 {
      var w := DeclaredWidth(decls[0]);
      var tail := decls[1..];
      if tail[|tail| - 1].width.Rest? {
        SumWidthsFront(decls[..|decls| - 1]);
        assert decls[..|decls| - 1][1..] == tail[..|tail| - 1];
      }
      ChainDefined(prev.Next(w), tail, n);
    }
  }

  lemma {:induction false} ChainDefinedOnlyIf(prev: Field, decls: seq<Decl>, n: nat)
    requires Chain(prev, decls, n).Some?
    ensures forall i :: 0 <= i < |decls| - 1 ==> !decls[i].width.Rest?
    ensures |decls| > 0 && decls[|decls| - 1].width.Rest? ==>
              prev.MostSignificantIndex() + SumWidths(decls[..|decls| - 1]) <= n
    decreases |decls|
  {
    if |decls| > 1 {
      var w := DeclaredWidth(decls[0]);
      var tail := decls[1..];
      ChainDefinedOnlyIf(prev.Next(w), tail, n);
      assert forall i :: 1 <= i < |decls| ==> decls[i] == tail[i - 1];
      if tail[|tail| - 1].width.Rest? {
        SumWidthsFront(decls[..|decls| - 1]);
        assert decls[..|decls| - 1][1..] == tail[..|tail| - 1];
      }
    }
  }

  /** Peeling the first declaration off a sum of widths. */
  lemma {:induction false} SumWidthsFront(decls: seq<Decl>)
    requires |decls| > 0 && forall i :: 0 <= i < |decls| ==> !decls[i].width.Rest?
    ensures SumWidths(decls) == DeclaredWidth(decls[0]) + SumWidths(decls[1..])
    decreases |decls|
  {
    if |decls| > 1 {
      SumWidthsFront(decls[..|decls| - 1]);
      assert decls[..|decls| - 1][1..] == decls[1..][..|decls| - 2];
    }
  }

  /** The macro accepts exactly the declaration lists that are non-empty,
      do not start with `= ..`, use `= ..` at most as the last declaration,
      and leave `remaining()` a non-negative width. */
  lemma LayoutDefined(decls: seq<Decl>, n: nat)
    ensures Fields(decls, n).Some? <==> Accepted(decls, n)
  {
    if |decls| > 0 && !decls[0].width.Rest? {
      var w := DeclaredWidth(decls[0]);
      var tail := decls[1..];
      assert forall i :: 1 <= i < |decls| ==> decls[i] == tail[i - 1];
      if Fields(decls, n).Some? {
        ChainDefinedOnlyIf(LeastSignificant(w), tail, n);
        if |tail| > 0 && tail[|tail| - 1].width.Rest? {
          SumWidthsFront(decls[..|decls| - 1]);
          assert decls[..|decls| - 1][1..] == tail[..|tail| - 1];
        }
      }
      if Accepted(decls, n) {
        if |tail| > 0 && tail[|tail| - 1].width.Rest? {
          SumWidthsFront(decls[..|decls| - 1]);
          assert decls[..|decls| - 1][1..] == tail[..|tail| - 1];
        }
        ChainDefined(LeastSignificant(w), tail, n);
      }
    }
  }
}

/** `assert_all_valid` over a `FIELDS` table. Its source is not part of this
    model; it is specified by the checks it makes: every field lies inside the
    word, no two fields share a bit, and the non-reserved fields appear in
    strictly ascending order of offset. It reports the first violation it
    meets (the panic), walking the table in declaration order. */
module Registry {
  import opened Wrappers
  import opened Pack
  import opened Layout

  datatype Violation =
    | OutOfRange(name: string)
    | Overlap(first: string, second: string)
    | OutOfOrder(first: string, second: string)

  /** The two fields have a bit in common. */
  predicate Overlaps(f: Field, g: Field)
  {
    f.offset < g.MostSignificantIndex() && g.offset < f.MostSignificantIndex()
  }

  /** What is wrong between an earlier entry a and a later entry b, if anything. */
  function PairViolation(a: Entry, b: Entry): Option<Violation>
  {
    if Overlaps(a.field, b.field) then Some(Overlap(a.name, b.name))
    else if !Reserved(a.name) && !Reserved(b.name) && a.field.offset >= b.field.offset then
      Some(OutOfOrder(a.name, b.name))
    else None
  }

  /** Entry i checked against entries j, j + 1, … i - 1. */
  function CheckEarlier(es: seq<Entry>, i: nat, j: nat): Option<Violation>
    requires j <= i < |es|
    decreases i - j
  {
    if j == i then None
    else match PairViolation(es[j], es[i])
      case Some(v) => Some(v)
      case None => CheckEarlier(es, i, j + 1)
  }

  /** Entry i checked against the word and against every earlier entry. */
  function CheckEntry(es: seq<Entry>, n: nat, i: nat): Option<Violation>
    requires i < |es|
  {
    if !es[i].field.FitsIn(n) then Some(OutOfRange(es[i].name)) else CheckEarlier(es, i, 0)
  }

  /** Entries i, i + 1, … checked in order. */
  function CheckFrom(es: seq<Entry>, n: nat, i: nat): Option<Violation>
    requires i <= |es|
    decreases |es| - i
  {
    if i == |es| then None
    else match CheckEntry(es, n, i)
      case Some(v) => Some(v)
      case None => CheckFrom(es, n, i + 1)
  }

  /** `assert_all_valid(fields)`: `None` when it returns normally, the first
      violation when it panics. */
  function AssertAllValid(es: seq<Entry>, n: nat): Option<Violation>
  {
    CheckFrom(es, n, 0)
  }

  /** A well-formed field table for an n-bit word. */
  predicate ValidRegistry(es: seq<Entry>, n: nat)
  {
    (forall i :: 0 <= i < |es| ==> es[i].field.FitsIn(n)) &&
    (forall j, i :: 0 <= j < i < |es| ==> PairViolation(es[j], es[i]).None?)
  }

  lemma {:induction false} CheckEarlierNone(es: seq<Entry>, i: nat, j: nat)
    requires j <= i < |es|
    ensures CheckEarlier(es, i, j).None? <==>
            forall k :: j <= k < i ==> PairViolation(es[k], es[i]).None?
    decreases i - j
  {
    if j < i {
      CheckEarlierNone(es, i, j + 1);
    }
  }

  lemma {:induction false} CheckFromNone(es: seq<Entry>, n: nat, i: nat)
    requires i <= |es|
    ensures CheckFrom(es, n, i).None? <==>
            (forall k :: i <= k < |es| ==> es[k].field.FitsIn(n)) &&
            (forall j, k :: 0 <= j < k && i <= k < |es| ==> PairViolation(es[j], es[k]).None?)
    decreases |es| - i
  {
    if i < |es| {
      CheckFromNone(es, n, i + 1);
      CheckEarlierNone(es, i, 0);
    }
  }

  /** `assert_all_valid` returns normally exactly on a well-formed table. */
  lemma AssertAllValidIff(es: seq<Entry>, n: nat)
    ensures AssertAllValid(es, n).None? <==> ValidRegistry(es, n)
  {
    CheckFromNone(es, n, 0);
  }

  /** Two entries sharing a bit make `assert_all_valid` panic. */
  lemma OverlapRejected(es: seq<Entry>, n: nat, j: nat, i: nat)
    requires j < i < |es| && Overlaps(es[j].field, es[i].field)
    ensures AssertAllValid(es, n).Some?
  {
    AssertAllValidIff(es, n);
    assert PairViolation(es[j], es[i]).Some?;
  }

  /** Contiguous fields are pairwise disjoint and ordered: every field lies
      at or above the top of every earlier one. */
  lemma {:induction false} ContiguousOrdered(es: seq<Entry>, start: nat, j: nat, i: nat)
    requires ContiguousFrom(es, start) && j < i < |es|
    ensures es[j].field.MostSignificantIndex() <= es[i].field.offset
    decreases i - j
  {
    if j + 1 < i {
      ContiguousOrdered(es, start, j + 1, i);
    }
  }

  /** A layout the macro accepts passes `assert_all_valid` exactly when it
      fits in the word and no field is empty. */
  lemma LayoutValid(decls: seq<Decl>, n: nat, es: seq<Entry>)
    requires Fields(decls, n) == Some(es)
    requires forall i :: 0 <= i < |es| ==> es[i].field.width >= 1
    ensures AssertAllValid(es, n).None? <==> es[|es| - 1].field.FitsIn(n)
  {
    LayoutShape(decls, n, es);
    AssertAllValidIff(es, n);
    var last := |es| - 1;
    if es[last].field.FitsIn(n) {
      forall i | 0 <= i < |es|
        ensures es[i].field.FitsIn(n)
      {
        if i < last {
          ContiguousOrdered(es, 0, i, last);
        }
      }
      forall j, i | 0 <= j < i < |es|
        ensures PairViolation(es[j], es[i]).None?
      {
        ContiguousOrdered(es, 0, j, i);
      }
    }
  }
}
