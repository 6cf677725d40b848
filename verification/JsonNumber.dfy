/** Integers in JSON text: `valueToString` of jsoncpp/json_writer.cpp with `uintToString` of
    jsoncpp/json_tool.h, and `decodeNumber` of jsoncpp/json_reader.cpp. */
module JsonNumber {
  import opened Decimal
  import opened Integers

  // ---------------------------------------------------------------- writing

  const BUFFER_SIZE: nat := 3 * 8 + 1

  /** uintToString: digits are put before `current`, the last one first. */
  method UIntToString(value: nat, buffer: array<char>, current: nat) returns (start: nat)
    requires |Dec(value)| + 1 <= current <= buffer.Length
    modifies buffer
    ensures start == current - 1 - |Dec(value)| && buffer[start..current - 1] == Dec(value) && buffer[current - 1] == '\0'
  {
    hide Dec;
    var v := value;
    var last := current - 1;
    buffer[last] := '\0';
    start := last;
    var again := true;
    ghost var digits := "";
    assert Dec(value) + "" == Dec(value);
    while again
      invariant 0 <= start <= last && (start == last ==> again) && start + |digits| == last
      invariant again <==> v != 0 || start == last
      invariant Dec(value) == (if again then Dec(v) else "") + digits
      invariant buffer[start..last] == digits && buffer[last] == '\0'
      decreases again, v
    {
      Peel(value, v, digits);
      start := start - 1;
      buffer[start] := DigitChar(v % 10);
      assert buffer[start..last] == [DigitChar(v % 10)] + buffer[start + 1..last];
      digits := [DigitChar(v % 10)] + digits;
      v := v / 10;
      again := v != 0;
    }
    assert "" + digits == digits;
  }

  /** The last digit of `v` goes to the front of the digits that are written already. */
  lemma Peel(n: nat, v: nat, digits: string)
    requires Dec(n) == Dec(v) + digits
    ensures Dec(n) == (if v / 10 != 0 then Dec(v / 10) else "") + ([DigitChar(v % 10)] + digits)
  {
  }

  /** valueToString for signed integers, on two's-complement machines. */
  method ValueToString(value: int) returns (text: string)
    requires IsLongLong(value)
    ensures text == Show(value)
  {
    ShowFits(value);
    var buffer := new char[BUFFER_SIZE];
    var isNegative := value < 0;
    var magnitude := if isNegative then Unsigned(Signed(Unsigned(-value))) else value;
    assert magnitude == if isNegative then -value else value;
    var current := UIntToString(magnitude, buffer, BUFFER_SIZE);
    ghost var digits := buffer[current..BUFFER_SIZE - 1];
    if isNegative {
      current := current - 1;
      buffer[current] := '-';
      assert buffer[current..BUFFER_SIZE - 1] == "-" + digits;
    }
    return buffer[current..BUFFER_SIZE - 1];
  }

  /** valueToString for unsigned integers. */
  method UnsignedToString(value: nat) returns (text: string)
    requires value <= ULLONG_MAX
    ensures text == Dec(value)
  {
    DecFits(value);
    var buffer := new char[BUFFER_SIZE];
    var current := UIntToString(value, buffer, BUFFER_SIZE);
    return buffer[current..BUFFER_SIZE - 1];
  }

  // ---------------------------------------------------------------- reading

  predicate IsNumberChar(c: char) { IsDigit(c) || c == '.' || c == 'e' || c == 'E' || c == '+' || c == '-' }

  /** A number token: it starts with a digit or a minus sign. */
  predicate IsNumberToken(s: string) {
    s != "" && (IsDigit(s[0]) || s[0] == '-') && forall i :: 0 <= i < |s| ==> IsNumberChar(s[i])
  }

  /** The type that a decoded integer gets. */
  datatype Number = Signed64(n: int) | Unsigned64(n: int) | Double

  /** Ints as far as they go, unsigned integers beyond that. */
  function Typed(n: int): Number {
    if n <= INT_MAX then Signed64(n) else Unsigned64(n)
  }

  /** What the digits say, if an integer type can hold it; otherwise the number is a double. */
  function Decoded(s: string): Number
    requires IsNumberToken(s)
  {
    var digits := if s[0] == '-' then s[1..] else s;
    if !AllDigits(digits) then Double
    else if s[0] == '-' then
      if Value(digits) <= -LLONG_MIN then Signed64(0 - Value(digits)) else Double
    else
      if Value(digits) <= ULLONG_MAX then Typed(Value(digits)) else Double
  }

  /** The threshold test is exact: it objects to a digit only if the whole value is too large. */
  lemma ThresholdExact(d: string, i: nat, value: nat, max: nat)
    requires AllDigits(d) && i < |d| && value == Value(d[..i]) && max >= 10
    requires value >= max / 10 && (value > max / 10 || i + 1 != |d| || DigitValue(d[i]) > max % 10)
    ensures Value(d) > max
  {
    NextDigit(d, i, value);
    if value > max / 10 || DigitValue(d[i]) > max % 10 {
      ValueGrows(d, i + 1);
    } else {
      var next := value * 10 + DigitValue(d[i]);
      NextDigit(d, i + 1, next);
      assert next * 10 > max;
      ValueGrows(d, i + 2);
    }
  }

  method DecodeNumber(s: string) returns (r: Number)
    requires IsNumberToken(s)
    ensures r == Decoded(s)
  {
    hide Value;
    ghost var base := if s[0] == '-' then 1 else 0;
    ghost var d := s[base..];
    var isDouble := false;
    for i := 0 to |s|
      invariant isDouble <==> exists j :: base <= j < i && !IsDigit(s[j])
    {
      isDouble := isDouble || s[i] == '.' || s[i] == 'e' || s[i] == 'E' || s[i] == '+' || (s[i] == '-' && i != 0);
    }
    if isDouble {
      DigitsAll(s, base);
      return Double;
    }
    DigitsAll(s, base);
    var current := 0;
    var isNegative := s[0] == '-';
    if isNegative { current := 1; }
    var max: nat := if isNegative then -LLONG_MIN else ULLONG_MAX;
    var threshold := max / 10;
    var value: nat := 0;
    EmptyValue();
    assert d[..0] == "";
    while current < |s|
      invariant base <= current <= |s| && value == Value(d[..current - base]) <= max
    {
      ghost var i := current - base;
      assert d[i] == s[current];
      var digit := DigitValue(s[current]);
      current := current + 1;
      NextDigit(d, i, value);
      if value >= threshold {
        if value > threshold || current != |s| || digit > max % 10 {
          ThresholdExact(d, i, value, max);
          return Double;
        }
      }
      value := value * 10 + digit;
    }
    assert d[..current - base] == d;
    if isNegative {
      return Signed64(Signed(Unsigned(-Signed(value))));
    } else if value <= INT_MAX {
      return Signed64(value);
    } else {
      return Unsigned64(value);
    }
  }

  lemma EmptyValue()
    ensures Value("") == 0
  {
  }

  lemma DigitsAll(s: string, base: nat)
    requires base <= |s|
    ensures AllDigits(s[base..]) <==> forall j :: base <= j < |s| ==> IsDigit(s[j])
  {
    if AllDigits(s[base..]) {
      forall j | base <= j < |s| ensures IsDigit(s[j]) { assert s[base..][j - base] == s[j]; }
    }
  }

  // ---------------------------------------------------------------- back again

  lemma DecodedSigned(n: int)
    requires IsLongLong(n)
    ensures IsNumberToken(Show(n)) && Decoded(Show(n)) == Typed(n)
  {
    var m := if n < 0 then -n else n;
    ValueOfDec(m);
    DecLeads(m);
    if n < 0 {
      assert Show(n)[1..] == Dec(m);
      assert forall i :: 0 < i < |Show(n)| ==> Show(n)[i] == Dec(m)[i - 1];
    }
  }

  lemma DecodedUnsigned(n: nat)
    requires n <= ULLONG_MAX
    ensures IsNumberToken(Dec(n)) && Decoded(Dec(n)) == Typed(n)
  {
    ValueOfDec(n);
    DecLeads(n);
  }
}
