/** 64-bit integers and their text: `string2ll` of redis/read.c, `sdsll2str` of redis/sds.c. */
module Integers {
  import opened Options
  import opened Decimal

  const LLONG_MAX: int := 0x7FFF_FFFF_FFFF_FFFF
  const LLONG_MIN: int := -0x8000_0000_0000_0000
  const ULLONG_MAX: int := 0xFFFF_FFFF_FFFF_FFFF
  const INT_MAX: int := 0x7FFF_FFFF

  predicate IsLongLong(v: int) { LLONG_MIN <= v <= LLONG_MAX }

  /** Conversion to unsigned long long. */
  function Unsigned(v: int): (u: nat)
    ensures u <= ULLONG_MAX
  {
    v % (ULLONG_MAX + 1)
  }

  /** Conversion from unsigned long long to long long, on two's-complement machines. */
  function Signed(u: nat): int
    requires u <= ULLONG_MAX
  {
    if u > LLONG_MAX then u - ULLONG_MAX - 1 else u
  }

  /** The decimal text of an integer. */
  function Show(v: int): (s: string)
    ensures s != ""
  {
    if v < 0 then "-" + Dec(-v) else Dec(v)
  }

  /** The numerals without needless zeros. */
  predicate Canonical(d: string) { d != "" && AllDigits(d) && (d[0] == '0' ==> |d| == 1) }

  function Digits(s: string): string { if s != "" && s[0] == '-' then s[1..] else s }

  /** What a strict reader of long longs makes of `s`. */
  function ToLongLong(s: string): Option<int> {
    var d := Digits(s);
    if !Canonical(d) || s == "-0" then None
    else
      var n: int := Value(d);
      var v := if s[0] == '-' then -n else n;
      if IsLongLong(v) then Some(v) else None
  }

  /** Strictness: a text is accepted exactly when it is the text of a long long, and of that one. */
  lemma ReadsExactlyShown(s: string, v: int)
    ensures ToLongLong(s) == Some(v) <==> IsLongLong(v) && s == Show(v)
  {
    var d := Digits(s);
    if ToLongLong(s) == Some(v) {
      DecOfValue(d);
      assert s[0] == '-' ==> s == "-" + d;
    }
    if IsLongLong(v) && s == Show(v) {
      var n := if v < 0 then -v else v;
      DecLeads(n);
      DecDigits(n);
      assert d == Dec(n);
      ValueOfDec(n);
      if n > 0 { assert s == "-0" ==> d == "0"; }
    }
  }

  lemma {:induction false} DecDigits(n: nat)
    ensures Canonical(Dec(n))
  {
    DecLeads(n);
    if n == 0 { assert Dec(0) == "0"; }
  }

  // ---------------------------------------------------------------- reading

  lemma ValueSnoc(s: string, c: char)
    requires AllDigits(s) && IsDigit(c)
    ensures AllDigits(s + [c]) && Value(s + [c]) == Value(s) * 10 + DigitValue(c)
  {
    assert (s + [c])[..|s|] == s;
  }

  /** More digits never make a value smaller. */
  lemma {:induction false} ValueGrows(s: string, i: nat)
    requires AllDigits(s) && i <= |s|
    ensures Value(s[..i]) <= Value(s)
    decreases |s| - i
  {
    if i < |s| {
      ValueSnoc(s[..i], s[i]);
      assert s[..i] + [s[i]] == s[..i + 1];
      ValueGrows(s, i + 1);
    } else {
      assert s[..i] == s;
    }
  }

  /** An overflow while the digits are read: the whole value is out of range. */
  lemma TooLarge(d: string, i: nat, v: nat)
    requires Canonical(d) && i < |d| && v == Value(d[..i]) && v * 10 + DigitValue(d[i]) > ULLONG_MAX
    ensures Value(d) > ULLONG_MAX
  {
    ValueSnoc(d[..i], d[i]);
    assert d[..i] + [d[i]] == d[..i + 1];
    ValueGrows(d, i + 1);
  }

  lemma Refused(s: string)
    requires !Canonical(Digits(s)) || s == "-0" || Value(Digits(s)) > ULLONG_MAX
    ensures ToLongLong(s) == None
  {
    hide Value;
  }

  lemma Accepted(s: string, d: string)
    requires Canonical(d) && d[0] != '0' && d == Digits(s)
    ensures var n: int := Value(d);
            ToLongLong(s) == if s[0] == '-' then (if -n < LLONG_MIN then None else Some(-n))
                             else if n > LLONG_MAX then None else Some(n)
  {
    hide Value;
  }

  lemma Zero()
    ensures ToLongLong("0") == Some(0)
  {
    assert "0"[..0] == "";
  }

  /** One more digit of `d`, if there is room for it. */
  lemma NextDigit(d: string, i: nat, v: nat)
    requires i < |d| && AllDigits(d[..i]) && v == Value(d[..i]) && IsDigit(d[i])
    ensures AllDigits(d[..i + 1]) && Value(d[..i + 1]) == v * 10 + DigitValue(d[i])
  {
    ValueSnoc(d[..i], d[i]);
    assert d[..i] + [d[i]] == d[..i + 1];
  }

  method String2Ll(s: string) returns (r: Option<int>)
    ensures r == ToLongLong(s)
  {
    hide Value, ToLongLong;
    var plen := 0;
    if plen == |s| { Refused(s); return None; }
    if |s| == 1 && s[0] == '0' {
      assert s == "0";
      Zero();
      return Some(0);
    }
    var negative := s[0] == '-';
    if negative {
      plen := 1;
      if plen == |s| { Refused(s); return None; }
    }
    ghost var base, d := plen, Digits(s);
    var v;
    if '1' <= s[plen] <= '9' {
      v := DigitValue(s[plen]);
      FirstDigit(d);
      plen := plen + 1;
    } else {
      assert d[0] == s[plen];
      assert s[plen] == '0' && |d| == 1 ==> s == "-0";
      Refused(s);
      return None;
    }
    while plen < |s| && IsDigit(s[plen])
      invariant base < plen <= |s| && |d| == |s| - base && d == s[base..]
      invariant '1' <= d[0] <= '9'
      invariant AllDigits(d[..plen - base]) && v == Value(d[..plen - base]) <= ULLONG_MAX
    {
      ghost var i := plen - base;
      NextDigit(d, i, v);
      if v > ULLONG_MAX / 10 {
        if Canonical(d) { TooLarge(d, i, v); }
        Refused(s);
        return None;
      }
      v := v * 10;
      if v > ULLONG_MAX - DigitValue(s[plen]) {
        if Canonical(d) { TooLarge(d, i, v / 10); }
        Refused(s);
        return None;
      }
      v := v + DigitValue(s[plen]);
      plen := plen + 1;
    }
    if plen < |s| {
      assert d[plen - base] == s[plen];
      Refused(s);
      return None;
    }
    assert d[..plen - base] == d;
    Accepted(s, d);
    if negative {
      if v > -(LLONG_MIN + 1) + 1 { return None; }
      return Some(Signed(Unsigned(-v)));
    } else {
      if v > LLONG_MAX { return None; }
      return Some(v);
    }
  }

  lemma FirstDigit(d: string)
    requires d != "" && IsDigit(d[0])
    ensures AllDigits(d[..1]) && Value(d[..1]) == DigitValue(d[0])
  {
    assert d[..1][..0] == "";
  }

  // ---------------------------------------------------------------- writing

  function Reversed(s: string): (r: string)
    ensures |r| == |s|
    ensures forall i :: 0 <= i < |s| ==> r[i] == s[|s| - 1 - i]
  {
    if s == "" then "" else Reversed(s[1..]) + [s[0]]
  }

  lemma ReversedSnoc(s: string, c: char)
    ensures Reversed(s + [c]) == [c] + Reversed(s)
  {
  }

  const SDS_LLSTR_SIZE := 21

  /** Room for every long long, and the null term. */
  lemma ShowFits(v: int)
    requires IsLongLong(v)
    ensures |Show(v)| < SDS_LLSTR_SIZE
  {
    Powers();
    DecLength(if v < 0 then -v else v, 19);
  }

  lemma DecFits(n: nat)
    requires n <= ULLONG_MAX
    ensures |Dec(n)| < SDS_LLSTR_SIZE
  {
    Powers();
    DecLength(n, 20);
  }

  lemma Powers()
    ensures Pow10(19) == 10_000_000_000_000_000_000 && Pow10(20) == 100_000_000_000_000_000_000
  {
    assert Pow10(10) == 10_000_000_000;
  }

  /** The digits, least significant first, and what is left of the value. */
  ghost predicate Unrolled(n: nat, v: nat, digits: string) {
    Dec(n) == (if v == 0 && digits != "" then "" else Dec(v)) + Reversed(digits)
  }

  lemma UnrollDigit(n: nat, v: nat, digits: string)
    requires Unrolled(n, v, digits) && (v == 0 ==> digits == "")
    ensures Unrolled(n, v / 10, digits + [DigitChar(v % 10)])
    ensures |digits| < |Dec(n)|
  {
    ReversedSnoc(digits, DigitChar(v % 10));
    if v >= 10 {
      assert Dec(v) == Dec(v / 10) + [DigitChar(v % 10)];
    }
  }

  /** The loop that both conversions start with. */
  method PutDigits(s: array<char>, value: nat) returns (p: nat)
    requires |Dec(value)| <= s.Length
    modifies s
    ensures p == |Dec(value)| && Reversed(s[..p]) == Dec(value)
    ensures forall i :: p <= i < s.Length ==> s[i] == old(s[i])
  {
    hide Reversed, Dec;
    var v := value;
    p := 0;
    var again := true;
    NothingUnrolled(value);
    assert s[..0] == "";
    while again
      invariant 0 <= p <= s.Length && (p == 0 ==> again)
      invariant again <==> v != 0 || p == 0
      invariant Unrolled(value, v, s[..p])
      invariant forall i :: p <= i < s.Length ==> s[i] == old(s[i])
      decreases again, v
    {
      UnrollDigit(value, v, s[..p]);
      ghost var digits := s[..p];
      s[p] := DigitChar(v % 10);
      assert s[..p + 1] == digits + [DigitChar(v % 10)];
      p := p + 1;
      v := v / 10;
      again := v != 0;
    }
    assert "" + Reversed(s[..p]) == Reversed(s[..p]);
  }

  lemma NothingUnrolled(n: nat)
    ensures Unrolled(n, n, "")
  {
  }

  lemma ShowParts(v: int)
    requires IsLongLong(v)
    ensures v < 0 ==> Unsigned(-v) == -v && Show(v) == ['-'] + Dec(Unsigned(-v))
    ensures v >= 0 ==> Show(v) == Dec(v)
  {
  }

  method SdsLl2Str(s: array<char>, value: int) returns (l: nat)
    requires IsLongLong(value) && s.Length >= SDS_LLSTR_SIZE
    modifies s
    ensures l == |Show(value)| < SDS_LLSTR_SIZE
    ensures s[..l] == Show(value) && s[l] == '\0'
    ensures forall i :: l < i < s.Length ==> s[i] == old(s[i])
  {
    hide Reversed, Dec, Show, Unsigned;
    ShowFits(value);
    ShowParts(value);
    var v := if value < 0 then Unsigned(-value) else value;
    var p := PutDigits(s, v);
    if value < 0 {
      ghost var digits := s[..p];
      s[p] := '-';
      p := p + 1;
      ReversedSnoc(digits, '-');
      assert s[..p] == digits + ['-'];
    }
    l := p;
    ghost var text := s[..l];
    s[l] := '\0';
    assert s[..l] == text;
    ReverseInPlace(s, l);
  }

  method SdsUll2Str(s: array<char>, value: nat) returns (l: nat)
    requires value <= ULLONG_MAX && s.Length >= SDS_LLSTR_SIZE
    modifies s
    ensures l == |Dec(value)| < SDS_LLSTR_SIZE
    ensures s[..l] == Dec(value) && s[l] == '\0'
    ensures forall i :: l < i < s.Length ==> s[i] == old(s[i])
  {
    hide Reversed, Dec;
    DecFits(value);
    l := PutDigits(s, value);
    ghost var text := s[..l];
    s[l] := '\0';
    assert s[..l] == text;
    ReverseInPlace(s, l);
  }

  /** The loop that both conversions end with. */
  method ReverseInPlace(s: array<char>, l: nat)
    requires l <= s.Length
    modifies s
    ensures s[..l] == Reversed(old(s[..l]))
    ensures forall i :: l <= i < s.Length ==> s[i] == old(s[i])
  {
    var i, j := 0, l;
    while i + 1 < j
      invariant 0 <= i <= j <= l && i + j == l
      invariant forall k :: 0 <= k < i ==> s[k] == old(s[l - 1 - k]) && s[l - 1 - k] == old(s[k])
      invariant forall k :: i <= k < j ==> s[k] == old(s[k])
      invariant forall k :: l <= k < s.Length ==> s[k] == old(s[k])
    {
      s[i], s[j - 1] := s[j - 1], s[i];
      i := i + 1;
      j := j - 1;
    }
  }

  /** What is written is read back. */
  lemma ReadBack(v: int)
    requires IsLongLong(v)
    ensures ToLongLong(Show(v)) == Some(v)
  {
    ReadsExactlyShown(Show(v), v);
  }
}
