/** Decimal numerals, as call ids, request ids and array indices use them. */
module Decimals {

  predicate IsDigit(c: char) {
    '0' <= c <= '9'
  }

  predicate AllDigits(s: string) {
    forall i :: 0 <= i < |s| ==> IsDigit(s[i])
  }

  /** The number a run of digits denotes. */
  function Value(digits: string): nat
    requires AllDigits(digits)
  {
    if digits == "" then 0
    else 10 * Value(digits[..|digits| - 1]) + (digits[|digits| - 1] - '0') as nat
  }

  /** The shortest numeral of `n`. */
  function Numeral(n: nat): (digits: string)
    ensures digits != "" && AllDigits(digits)
    ensures Value(digits) == n
  {
    var last := '0' + (n % 10) as char;
    if n < 10 then [last]
    else
      var digits := Numeral(n / 10) + [last];
      assert digits[..|digits| - 1] == Numeral(n / 10);
      digits
  }

  /** A one-letter prefix and a numeral, as in `c12` or `r3`. */
  function Tagged(tag: char, n: nat): string {
    [tag] + Numeral(n)
  }

  lemma TaggedInjective(tag: char, m: nat, n: nat)
    ensures Tagged(tag, m) == Tagged(tag, n) <==> m == n
  {
    assert Tagged(tag, m)[1..] == Numeral(m) && Tagged(tag, n)[1..] == Numeral(n);
  }
}
