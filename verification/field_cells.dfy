/**
 * The immutable cell value of the game field and its text label
 * ("<char> <price>", the price omitted when it is 1).
 */
module FieldCells {
  import opened Wrappers

  /**
   * One position of the grid: its letter, its point price, its row `i` and
   * its column `j`. A datatype value cannot be updated, so the four
   * properties, set once at construction, never change afterwards.
   */
  datatype FieldCell = FieldCell(ch: char, price: int, i: int, j: int)

  predicate IsDigit(c: char) {
    '0' <= c <= '9'
  }

  predicate AllDigits(s: string) {
    forall k :: 0 <= k < |s| ==> IsDigit(s[k])
  }

  function DigitChar(d: nat): (c: char)
    requires d < 10
    ensures IsDigit(c)
  {
    ('0' as int + d) as char
  }

  function DigitValue(c: char): nat
    requires IsDigit(c)
  {
    c as int - '0' as int
  }

  /** Decimal digits of `n`, most significant first, no leading zero. */
  function NatToString(n: nat): (s: string)
    ensures |s| > 0 && AllDigits(s)
    decreases n
  {
    if n < 10 then [DigitChar(n)] else NatToString(n / 10) + [DigitChar(n % 10)]
  }

  /** The invariant-culture rendering of an `int`: a minus sign for negatives. */
  function IntToString(n: int): (s: string)
    ensures |s| > 0
    ensures n < 0 <==> s[0] == '-'
  {
    if n < 0 then "-" + NatToString(-n) else NatToString(n)
  }

  /** `FieldCellModel.ToString`: the letter, a space, then the price unless it is 1. */
  function ToString(c: FieldCell): (s: string)
    ensures |s| >= 2 && s[0] == c.ch && s[1] == ' '
    ensures |s| == 2 <==> c.price == 1
  {
    [c.ch, ' '] + (if c.price == 1 then "" else IntToString(c.price))
  }

  // ---------------------------------------------------------------------
  // Reading a label back: the inverse of ToString.

  function DigitsValue(s: string): nat
    requires AllDigits(s)
  {
    if s == [] then 0 else DigitsValue(s[..|s| - 1]) * 10 + DigitValue(s[|s| - 1])
  }

  function ParseInt(s: string): Option<int> {
    if |s| > 0 && AllDigits(s) then Some(DigitsValue(s))
    else if |s| > 1 && s[0] == '-' && AllDigits(s[1..]) then Some(-(DigitsValue(s[1..]) as int))
    else None
  }

  /** The letter and price a label shows; an empty price part reads as 1. */
  function ParseLabel(s: string): Option<(char, int)> {
    if |s| < 2 || s[1] != ' ' then None
    else if |s| == 2 then Some((s[0], 1))
    else match ParseInt(s[2..])
      case Some(p) => Some((s[0], p))
      case None => None
  }

  lemma {:induction false} NatToStringRoundTrip(n: nat)
    ensures DigitsValue(NatToString(n)) == n
    decreases n
  {
    if n >= 10 {
      var s := NatToString(n);
      assert s[..|s| - 1] == NatToString(n / 10);
      NatToStringRoundTrip(n / 10);
    }
  }

  lemma IntToStringRoundTrip(n: int)
    ensures ParseInt(IntToString(n)) == Some(n)
  {
    if n < 0 {
      NatToStringRoundTrip(-n);
      var s := IntToString(n);
      assert s[1..] == NatToString(-n);
      assert !IsDigit(s[0]);
    } else {
      NatToStringRoundTrip(n);
    }
  }

  /** A cell's label shows its letter and price, and both can be read back. */
  lemma LabelRoundTrip(c: FieldCell)
    ensures ParseLabel(ToString(c)) == Some((c.ch, c.price))
  {
    var s := ToString(c);
    if c.price != 1 {
      IntToStringRoundTrip(c.price);
      assert s[2..] == IntToString(c.price);
    }
  }

  /** Two cells with the same label have the same letter and the same price. */
  lemma LabelInjective(a: FieldCell, b: FieldCell)
    requires ToString(a) == ToString(b)
    ensures a.ch == b.ch && a.price == b.price
  {
    LabelRoundTrip(a);
    LabelRoundTrip(b);
  }
}
