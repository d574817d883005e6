/** Decimal notation for natural numbers. */
module Decimal {

  predicate IsDigit(c: char) {
    '0' <= c <= '9'
  }

  predicate AllDigits(s: string) {
    forall i :: 0 <= i < |s| ==> IsDigit(s[i])
  }

  /** One or more digits, as \d+ matches them. */
  predicate IsNumeral(s: string) {
    s != "" && AllDigits(s)
  }

  /** No zero in front, except for the numeral "0" itself. */
  predicate IsCanonical(s: string) {
    IsNumeral(s) && (s[0] != '0' || |s| == 1)
  }

  function DigitValue(c: char): (d: nat)
    requires IsDigit(c)
    ensures d < 10
  {
    c as int - '0' as int
  }

  function Value(s: string): nat
    requires AllDigits(s)
  {
    if s == "" then 0 else 10 * Value(s[..|s| - 1]) + DigitValue(s[|s| - 1])
  }

  function Show(n: nat): (s: string)
    ensures IsCanonical(s)
    ensures s[0] == '0' ==> n == 0
  {
    var last := ('0' as int + n % 10) as char;
    if n < 10 then [last] else Show(n / 10) + [last]
  }

  lemma {:induction false} ValueOfShow(n: nat)
    ensures Value(Show(n)) == n
  {
    var s := Show(n);
    if n < 10 {
      assert s[..0] == "";
    } else {
      assert s[..|s| - 1] == Show(n / 10);
      ValueOfShow(n / 10);
    }
  }

  lemma {:induction false} PositiveValue(s: string)
    requires IsNumeral(s) && s[0] != '0'
    ensures Value(s) >= 1
  {
    if |s| > 1 { PositiveValue(s[..|s| - 1]); }
  }

  /** Showing undoes reading exactly on the numerals without a leading zero. */
  lemma {:induction false} ShowOfValue(s: string)
    requires IsNumeral(s)
    ensures Show(Value(s)) == s <==> IsCanonical(s)
  {
    if IsCanonical(s) {
      var front := s[..|s| - 1];
      assert s == front + [s[|s| - 1]];
      if |s| > 1 {
        assert front[0] == s[0];
        PositiveValue(front);
        assert Value(s) / 10 == Value(front) && Value(s) % 10 == DigitValue(s[|s| - 1]);
        ShowOfValue(front);
      }
    }
  }

  lemma {:induction false} ShowInjective(a: nat, b: nat)
    requires Show(a) == Show(b)
    ensures a == b
  {
    ValueOfShow(a);
    ValueOfShow(b);
  }
}
