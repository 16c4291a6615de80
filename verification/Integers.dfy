/** What the name an integer type is printed with says. */
module Integers {
  import opened Basics
  import opened Facts
  import opened Lower
  import Render
  import Repair

  lemma ValueOfMore(digits: seq<u8>, digit: u8)
    requires Repair.IsDigit(digit) && forall i :: 0 <= i < |digits| ==> Repair.IsDigit(digits[i])
    ensures Repair.DigitsValue(digits + [digit]) == Repair.DigitsValue(digits) * 10 + (digit as int - 48)
  {
    assert (digits + [digit])[..|digits|] == digits;
  }

  lemma DigitsSayTheWidth()
    ensures Repair.ParseNumber(Ascii("8")) == Some(8) && Repair.ParseNumber(Ascii("16")) == Some(16)
    ensures Repair.ParseNumber(Ascii("32")) == Some(32) && Repair.ParseNumber(Ascii("64")) == Some(64)
    ensures Repair.ParseNumber(Ascii("128")) == Some(128)
  {
    WidthsInDigits();
    DecimalParses(8);
    DecimalParses(16);
    DecimalParses(32);
    DecimalParses(64);
    DecimalParses(128);
  }

  lemma {:induction false} DecimalIsDigits(n: nat)
    ensures forall i :: 0 <= i < |Render.Decimal(n)| ==> Repair.IsDigit(Render.Decimal(n)[i])
    ensures Repair.DigitsValue(Render.Decimal(n)) == n
  {
    if n < 10 {
      ValueOfMore([], 48 + n);
      assert [] + [48 + n as u8] == [48 + n as u8];
    } else {
      DecimalIsDigits(n / 10);
      ValueOfMore(Render.Decimal(n / 10), 48 + n % 10);
    }
  }

  /** A number is read as what it is written for, with or without a plus sign. */
  lemma DecimalParses(n: nat)
    ensures Repair.ParseNumber(Render.Decimal(n)) == Some(n)
    ensures Repair.ParseNumber([43] + Render.Decimal(n)) == Some(n)
  {
    DecimalIsDigits(n);
    var digits := Render.Decimal(n);
    assert Repair.IsDigit(digits[0]) && ([43] + digits)[1..] == digits;
  }

  lemma LetterAndDigits(letter: u8, digits: seq<u8>)
    requires letter == 105 || letter == 117
    requires digits != [] && digits[0] != 's' as int
    ensures Repair.IntegerTypeNamed([letter] + digits)
         == match Repair.ParseNumber(digits)
            case Some(width) =>
              if width in {8, 16, 32, 64, 128} then Some(Repair.IntegerType(letter == 105, Some(width))) else None
            case None => None
  {
    assert ([letter] + digits)[1..] == digits;
    assert Ascii("size")[0] == 's' as int;
  }

  function WidthFor(bits: nat): nat {
    if bits > 64 then 128 else if bits > 32 then 64 else if bits > 16 then 32 else if bits > 8 then 16 else 8
  }

  lemma WidthIsNarrowest(bits: nat)
    requires 0 < bits <= 128
    ensures bits <= WidthFor(bits) && WidthFor(bits) in RUST_WIDTHS
    ensures forall width :: width in RUST_WIDTHS && bits <= width ==> WidthFor(bits) <= width
  {
  }

  lemma IntegerTextReads(types: Types, kind: TypeId)
    requires kind < |types.bitWidth| && kind < |types.flags| && 0 < types.bitWidth[kind] <= 128
    ensures Repair.IntegerTypeNamed(IntegerText(types, kind))
         == Some(Repair.IntegerType(types.flags[kind] % 2 == 1, Some(WidthFor(types.bitWidth[kind]))))
  {
    var bits, letter: u8 := types.bitWidth[kind], if types.flags[kind] % 2 == 1 then 105 else 117;
    var digits := Ascii(
      if bits > 64 then "128" else if bits > 32 then "64" else if bits > 16 then "32" else if bits > 8 then "16"
      else "8");
    DigitsSayTheWidth();
    assert Ascii("i") == [105] && Ascii("u") == [117];
    assert IntegerText(types, kind) == [letter] + digits;
    LetterAndDigits(letter, digits);
  }

  /** The name written for an integer reads back as its sign and the narrowest width that holds it. */
  lemma IntegerReadsBack(tables: Tables, lowering: Lowering, kind: TypeId, depth: nat) returns (width: nat)
    requires kind < |tables.types.kind| && tables.types.kind[kind].Integer? && depth < 8
    requires kind < |tables.types.bitWidth| && kind < |tables.types.flags|
    requires 0 < tables.types.bitWidth[kind] <= 128
    ensures Repair.IntegerTypeNamed(TypeText(tables, lowering, kind, depth))
         == Some(Repair.IntegerType(tables.types.flags[kind] % 2 == 1, Some(width)))
    ensures tables.types.bitWidth[kind] <= width && width in RUST_WIDTHS
    ensures forall other :: other in RUST_WIDTHS && tables.types.bitWidth[kind] <= other ==> width <= other
  {
    width := WidthFor(tables.types.bitWidth[kind]);
    WidthIsNarrowest(tables.types.bitWidth[kind]);
    IntegerTextReads(tables.types, kind);
  }
}
