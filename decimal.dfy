/** Python's str() of a non-negative int: its canonical decimal digits.  The
    prompt builder uses it to number the documents. */
module Decimal {

  predicate IsDigit(c: char) { '0' <= c <= '9' }

  /** A canonical decimal numeral: digits only, and no leading zero except in
      "0" itself. */
  predicate IsNumeral(s: string)
  {
    |s| > 0 && (forall i :: 0 <= i < |s| ==> IsDigit(s[i])) && (s[0] == '0' ==> |s| == 1)
  }

  function DigitChar(d: nat): (c: char)
    requires d < 10
    ensures IsDigit(c) && c as int - '0' as int == d
  {
    ('0' as int + d) as char
  }

  /** str(n): the numeral of n, most significant digit first. */
  function NatToDecimal(n: nat): (r: string)
    ensures IsNumeral(r)
    ensures n == 0 <==> r == "0"
    decreases n
  {
    if n < 10 then [DigitChar(n)] else NatToDecimal(n / 10) + [DigitChar(n % 10)]
  }

  function DigitValue(c: char): (d: nat)
    requires IsDigit(c)
    ensures d < 10 && DigitChar(d) == c
  {
    c as int - '0' as int
  }

  /** The value of a string of digits, read most significant digit first. */
  function DecimalValue(s: string): nat
    requires forall i :: 0 <= i < |s| ==> IsDigit(s[i])
  {
    if |s| == 0 then 0
    else 10 * DecimalValue(s[..|s| - 1]) + DigitValue(s[|s| - 1])
  }

  /** Reading back the numeral of n gives n. */
  lemma {:induction false} ValueOfDecimal(n: nat)
    ensures DecimalValue(NatToDecimal(n)) == n
    decreases n
  {
    var r := NatToDecimal(n);
    if n >= 10 {
      ValueOfDecimal(n / 10);
      assert r[..|r| - 1] == NatToDecimal(n / 10);
    }
  }

  /** A numeral with more than one digit stands for at least 10. */
  lemma {:induction false} LongNumeralValue(s: string)
    requires IsNumeral(s)
    requires |s| > 1
    ensures DecimalValue(s) >= 10
    decreases |s|
  {
    var init := s[..|s| - 1];
    if |init| > 1 {
      LongNumeralValue(init);
    } else {
      assert init[0] == s[0];
    }
  }

  /** Every canonical numeral is the str() of its value. */
  lemma {:induction false} DecimalOfValue(s: string)
    requires IsNumeral(s)
    ensures NatToDecimal(DecimalValue(s)) == s
    decreases |s|
  {
    var v := DecimalValue(s);
    if |s| > 1 {
      var init := s[..|s| - 1];
      assert init[0] == s[0];
      LongNumeralValue(s);
      DecimalOfValue(init);
      assert v / 10 == DecimalValue(init);
      assert v % 10 == DigitValue(s[|s| - 1]);
      assert s == init + [s[|s| - 1]];
    }
  }

  /** Different numbers have different numerals. */
  lemma DecimalInjective(m: nat, n: nat)
    requires m != n
    ensures NatToDecimal(m) != NatToDecimal(n)
  {
    ValueOfDecimal(m);
    ValueOfDecimal(n);
  }
}
