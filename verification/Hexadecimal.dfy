/** Hexadecimal numerals, in capitals or small letters, with any number of leading zeros. */
module Hexadecimal {

  predicate IsHexdig(c: char) { '0' <= c <= '9' || 'A' <= c <= 'F' || 'a' <= c <= 'f' }

  predicate AllHex(s: string) { forall i :: 0 <= i < |s| ==> IsHexdig(s[i]) }

  function HexdigValue(c: char): (n: nat)
    requires IsHexdig(c)
    ensures n < 16 && (c == "0123456789ABCDEF"[n] || c == "0123456789abcdef"[n])
  {
    if '0' <= c <= '9' then c as int - '0' as int
    else if 'A' <= c <= 'F' then c as int - 'A' as int + 10
    else c as int - 'a' as int + 10
  }

  function HexNumber(s: string): nat
    requires AllHex(s)
  {
    if s == "" then 0 else 16 * HexNumber(s[..|s| - 1]) + HexdigValue(s[|s| - 1])
  }

  lemma HexSnoc(s: string)
    requires AllHex(s) && s != ""
    ensures AllHex(s[..|s| - 1]) && IsHexdig(s[|s| - 1])
    ensures HexNumber(s) == 16 * HexNumber(s[..|s| - 1]) + HexdigValue(s[|s| - 1])
    ensures |s| == 1 ==> HexNumber(s) == HexdigValue(s[0])
  {
  }
}
