/** Decimal rendering of integers, as Python's `str.format` writes them. */
module Decimal {

  predicate IsDigit(c: char) {
    '0' <= c <= '9'
  }

  /** The number a string of decimal digits denotes (most significant digit first). */
  function DigitsValue(s: string): int
    requires forall i :: 0 <= i < |s| ==> IsDigit(s[i])
  {
    if s == [] then 0
    else DigitsValue(s[..|s| - 1]) * 10 + (s[|s| - 1] as int - '0' as int)
  }

  /** The shortest decimal digit string of `n`: no leading zero, and it denotes `n`. */
  function NatToString(n: nat): (s: string)
    ensures |s| > 0
    ensures forall i :: 0 <= i < |s| ==> IsDigit(s[i])
    ensures |s| > 1 ==> s[0] != '0'
    ensures DigitsValue(s) == n
    decreases n
  {
    var last := [('0' as int + n % 10) as char];
    if n < 10 then last
    else
      var prefix := NatToString(n / 10);
      assert (prefix + last)[..|prefix + last| - 1] == prefix;
      prefix + last
  }

  /** `str(k)`: a minus sign before the digits of a negative number. */
  function IntToString(k: int): (s: string)
    ensures |s| > 0
    ensures s[0] == '-' <==> k < 0
    ensures k >= 0 ==> (forall i :: 0 <= i < |s| ==> IsDigit(s[i])) && DigitsValue(s) == k
    ensures k < 0 ==> (forall i :: 1 <= i < |s| ==> IsDigit(s[i])) && DigitsValue(s[1..]) == -k
    ensures k >= 0 && |s| > 1 ==> s[0] != '0'
    ensures k < 0 ==> |s| >= 2 && (|s| > 2 ==> s[1] != '0')
  {
    if k < 0 then "-" + NatToString(-k) else NatToString(k)
  }
}
