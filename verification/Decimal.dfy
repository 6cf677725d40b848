/** Decimal numerals as strings of digits, most significant first. */
module Decimal {

  predicate IsDigit(c: char) { '0' <= c <= '9' }

  function DigitValue(c: char): nat
    requires IsDigit(c)
  {
    c as int - '0' as int
  }

  function DigitChar(d: nat): (c: char)
    requires d < 10
    ensures IsDigit(c) && DigitValue(c) == d
  {
    ('0' as int + d) as char
  }

  predicate AllDigits(s: string) { forall i :: 0 <= i < |s| ==> IsDigit(s[i]) }

  /** The numeral of `n`, without leading zeros. */
  function Dec(n: nat): (s: string)
    ensures s != "" && AllDigits(s)
  {
    if n < 10 then [DigitChar(n)] else Dec(n / 10) + [DigitChar(n % 10)]
  }

  function Value(s: string): nat
    requires AllDigits(s)
  {
    if s == "" then 0 else Value(s[..|s| - 1]) * 10 + DigitValue(s[|s| - 1])
  }

  lemma {:induction false} ValueOfDec(n: nat)
    ensures Value(Dec(n)) == n
  {
    if n >= 10 {
      ValueOfDec(n / 10);
      assert Dec(n)[..|Dec(n)| - 1] == Dec(n / 10);
    } else {
      assert Dec(n)[..0] == "";
    }
  }

  /** No leading zero, but for zero itself. */
  lemma {:induction false} DecLeads(n: nat)
    ensures Dec(n)[0] == '0' <==> n == 0
    ensures n > 0 ==> '1' <= Dec(n)[0] <= '9'
  {
    if n >= 10 {
      DecLeads(n / 10);
      assert Dec(n)[0] == Dec(n / 10)[0];
    }
  }

  /** Numerals without leading zeros are the numerals of their values. */
  lemma {:induction false} DecOfValue(s: string)
    requires AllDigits(s) && s != "" && (s[0] == '0' ==> |s| == 1)
    ensures Dec(Value(s)) == s
    decreases |s|
  {
    var init, d := s[..|s| - 1], DigitValue(s[|s| - 1]);
    assert s == init + [s[|s| - 1]];
    if |s| == 1 {
      assert Value(init) == 0;
    } else {
      DecOfValue(init);
      DecLeads(Value(init));
      assert s[0] == init[0];
      assert Value(init) > 0;
      assert Value(s) / 10 == Value(init) && Value(s) % 10 == d;
    }
  }

  lemma {:induction false} DecLength(n: nat, k: nat)
    requires k > 0
    ensures |Dec(n)| <= k <==> n < Pow10(k)
    decreases n
  {
    if n < 10 {
      Pow10Grows(k);
    } else if k == 1 {
    } else {
      DecLength(n / 10, k - 1);
    }
  }

  function Pow10(k: nat): nat { if k == 0 then 1 else 10 * Pow10(k - 1) }

  lemma {:induction false} Pow10Grows(k: nat)
    ensures k > 0 ==> Pow10(k) >= 10
    ensures Pow10(k) >= 1
  {
    if k > 0 { Pow10Grows(k - 1); }
  }
}
