/**
 * Python 2's `int()` on a depth field: an optional sign followed by decimal digits.
 * Surrounding whitespace is not modelled (lines arrive trimmed and the field comes out of a split).
 */
module Numbers {

  predicate IsDigit(c: char)
  {
    '0' <= c <= '9'
  }

  predicate AllDigits(s: string)
  {
    forall i :: 0 <= i < |s| ==> IsDigit(s[i])
  }

  /** The strings on which `int()` succeeds. */
  predicate IsDecimal(s: string)
  {
    if |s| > 0 && (s[0] == '-' || s[0] == '+') then |s| > 1 && AllDigits(s[1..])
    else |s| > 0 && AllDigits(s)
  }

  /** The value of a string of decimal digits, most significant first. */
  function DigitsValue(s: string): (n: nat)
    requires AllDigits(s)
  {
    if |s| == 0 then 0
    else 10 * DigitsValue(s[..|s| - 1]) + (s[|s| - 1] - '0') as int
  }

  /** `int(s)`. */
  function IntValue(s: string): (n: int)
    requires IsDecimal(s)
    ensures s[0] == '-' ==> n <= 0
    ensures s[0] != '-' ==> n >= 0
  {
    if s[0] == '-' then -(DigitsValue(s[1..]) as int)
    else if s[0] == '+' then DigitsValue(s[1..])
    else DigitsValue(s)
  }
}
