/** Decimal printing of unsigned integers and Rust's `str::parse::<u64>`. */
module Decimal {
  import opened Basics

  predicate IsDigit(c: char) {
    '0' <= c <= '9'
  }

  function DigitChar(d: nat): (c: char)
    requires d < 10
    ensures IsDigit(c) && DigitValue(c) == d
  {
    ('0' as int + d) as char
  }

  function DigitValue(c: char): (d: nat)
    requires IsDigit(c)
    ensures d < 10
  {
    c as int - '0' as int
  }

  /** `format!("{}", n)`. */
  function Print(n: nat): (s: string)
    ensures s != []
    ensures forall c :: c in s ==> IsDigit(c)
  {
    if n < 10 then [DigitChar(n)] else Print(n / 10) + [DigitChar(n % 10)]
  }

  /** Value of a run of digits, if it is one. */
  function Value(s: string): Option<nat> {
    if s == [] then Some(0)
    else
      match Value(s[..|s| - 1])
      case None => None
      case Some(v) => if IsDigit(s[|s| - 1]) then Some(10 * v + DigitValue(s[|s| - 1])) else None
  }

  /** `parse::<u64>()`: one optional leading plus sign, then digits, and no overflow. */
  function ParseU64(s: string): (r: Option<u64>)
  {
    var digits := if s != [] && s[0] == '+' then s[1..] else s;
    if digits == [] then None
    else
      match Value(digits)
      case None => None
      case Some(v) => if v < TWO_TO_THE_64 then Some(v) else None
  }

  lemma {:induction false} ValueOfPrint(n: nat)
    ensures Value(Print(n)) == Some(n)
  {
    if n >= 10 {
      ValueOfPrint(n / 10);
      var s := Print(n);
      assert s[..|s| - 1] == Print(n / 10);
    } else {
      assert Print(n)[..0] == [];
    }
  }

  lemma ParsePrint(n: u64)
    ensures ParseU64(Print(n)) == Some(n)
  {
    ValueOfPrint(n);
    assert Print(n)[0] in Print(n);
  }
}
