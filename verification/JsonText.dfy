/** Strings in JSON text: `valueToQuotedString` of jsoncpp/json_writer.cpp, `decodeString` of
    jsoncpp/json_reader.cpp, and `codePointToUTF8` of jsoncpp/json_tool.h. */
module JsonText {
  import opened Options
  import CStrings

  const BS: char := 8 as char
  const FF: char := 12 as char

  // ---------------------------------------------------------------- quoting

  /** A char is signed: bytes from 0x80 on are not control characters. */
  predicate IsControl(c: char) { 0 < c as int <= 0x1F }

  /** A digit of std::hex with std::uppercase. */
  function HexDigit(n: nat): (c: char)
    requires n < 16
    ensures c == "0123456789ABCDEF"[n]
  {
    if n < 10 then ('0' as int + n) as char else ('A' as int + n - 10) as char
  }

  predicate Special(c: char) {
    c == '"' || c == '\\' || c == BS || c == FF || c == '\n' || c == '\r' || c == '\t'
  }

  function Escape(c: char): (e: string)
    ensures e != "" && |e| <= 6
  {
    if c == '"' then ['\\', '"']
    else if c == '\\' then ['\\', '\\']
    else if c == BS then ['\\', 'b']
    else if c == FF then ['\\', 'f']
    else if c == '\n' then ['\\', 'n']
    else if c == '\r' then ['\\', 'r']
    else if c == '\t' then ['\\', 't']
    else if IsControl(c) then ['\\', 'u', '0', '0', HexDigit(c as int / 16), HexDigit(c as int % 16)]
    else [c]
  }

  function Escapes(s: string): string {
    if s == "" then "" else Escape(s[0]) + Escapes(s[1..])
  }

  function Quoted(s: string): string { "\"" + Escapes(s) + "\"" }

  lemma {:induction false} EscapesSnoc(s: string, c: char)
    ensures Escapes(s + [c]) == Escapes(s) + Escape(c)
    decreases |s|
  {
    hide Escape;
    if s == "" {
      assert [c][1..] == "" && "" + [c] == [c];
    } else {
      assert (s + [c])[1..] == s[1..] + [c];
      EscapesSnoc(s[1..], c);
    }
  }

  /** Text in which nothing needs escaping is its own escaped form. */
  lemma {:induction false} EscapesPlain(s: string)
    requires forall c :: c in s ==> !Special(c) && !IsControl(c)
    ensures Escapes(s) == s
    decreases |s|
  {
    if s != "" {
      assert s[0] in s;
      forall c | c in s[1..]
        ensures c in s
      {
      }
      EscapesPlain(s[1..]);
      assert s == [s[0]] + s[1..];
    }
  }

  lemma NoEscapes()
    ensures Escapes("") == ""
  {
  }

  /** The value is read as a C string. */
  method ValueToQuotedString(value: string) returns (result: string)
    ensures result == Quoted(CStrings.CString(value))
  {
    hide Escapes;
    var s := CStrings.CString(value);
    NoEscapes();
    var plain := NeedsNoEscape(s);
    if plain {
      EscapesPlain(s);
      return "\"" + s + "\"";
    }
    result := "\"";
    for i := 0 to |s|
      invariant result == "\"" + Escapes(s[..i])
    {
      EscapesSnoc(s[..i], s[i]);
      assert s[..i] + [s[i]] == s[..i + 1];
      var c := s[i];
      if c == '"' { result := result + ['\\', '"']; }
      else if c == '\\' { result := result + ['\\', '\\']; }
      else if c == BS { result := result + ['\\', 'b']; }
      else if c == FF { result := result + ['\\', 'f']; }
      else if c == '\n' { result := result + ['\\', 'n']; }
      else if c == '\r' { result := result + ['\\', 'r']; }
      else if c == '\t' { result := result + ['\\', 't']; }
      else if IsControl(c) {
        result := result + ['\\', 'u', '0', '0', HexDigit(c as int / 16), HexDigit(c as int % 16)];
      } else { result := result + [c]; }
    }
    assert s[..|s|] == s;
    result := result + "\"";
  }

  /** strpbrk and containsControlCharacter. */
  method NeedsNoEscape(s: string) returns (plain: bool)
    ensures plain <==> forall c :: c in s ==> !Special(c) && !IsControl(c)
  {
    for i := 0 to |s|
      invariant forall c :: c in s[..i] ==> !Special(c) && !IsControl(c)
    {
      if Special(s[i]) || IsControl(s[i]) { return false; }
    }
    return true;
  }

  // ---------------------------------------------------------------- code points

  /** codePointToUTF8; the bits that are or-ed together never overlap. */
  function CodePointToUTF8(cp: nat): string {
    if cp <= 0x7F then [cp as char]
    else if cp <= 0x7FF then [(0xC0 + cp / 64 % 32) as char, (0x80 + cp % 64) as char]
    else if cp <= 0xFFFF then
      [(0xE0 + cp / 4096 % 16) as char, (0x80 + cp / 64 % 64) as char, (0x80 + cp % 64) as char]
    else if cp <= 0x10FFFF then
      [(0xF0 + cp / 262144 % 8) as char, (0x80 + cp / 4096 % 64) as char, (0x80 + cp / 64 % 64) as char,
       (0x80 + cp % 64) as char]
    else ""
  }

  /** Reading one code point, as section 3 of RFC 3629 lays it out: in its shortest form. */
  function FromUTF8(s: string): Option<(nat, nat)> {
    if s == "" then None
    else
      var a := s[0] as int;
      if a < 0x80 then Some((a, 1))
      else if 0xC0 <= a < 0xE0 && Tailed(s, 2) then Shortest((a - 0xC0) * 64 + Tail(s[1]), 0x80, 2)
      else if 0xE0 <= a < 0xF0 && Tailed(s, 3) then
        Shortest((a - 0xE0) * 4096 + Tail(s[1]) * 64 + Tail(s[2]), 0x800, 3)
      else if 0xF0 <= a < 0xF8 && Tailed(s, 4) then
        Shortest((a - 0xF0) * 262144 + Tail(s[1]) * 4096 + Tail(s[2]) * 64 + Tail(s[3]), 0x1_0000, 4)
      else None
  }

  function Shortest(cp: nat, from: nat, n: nat): Option<(nat, nat)> { if cp < from then None else Some((cp, n)) }

  predicate IsTail(c: char) { 0x80 <= c as int < 0xC0 }

  /** `n` bytes, and all but the first of them continue. */
  predicate Tailed(s: string, n: nat) { |s| >= n && forall i :: 1 <= i < n ==> IsTail(s[i]) }

  function Tail(c: char): nat { c as int % 64 }

  lemma Base64(cp: nat)
    ensures cp == cp / 64 * 64 + cp % 64
    ensures cp / 64 == cp / 4096 * 64 + cp / 64 % 64
    ensures cp / 4096 == cp / 262144 * 64 + cp / 4096 % 64
  {
    assert cp / 64 / 64 == cp / 4096 && cp / 4096 / 64 == cp / 262144;
  }

  lemma TailIs(n: nat)
    requires n < 64
    ensures Tail((0x80 + n) as char) == n && IsTail((0x80 + n) as char)
  {
  }

  /** Every code point is encoded so that it can be read back, whatever follows. */
  lemma UTF8Back(cp: nat, rest: string)
    requires cp <= 0x10FFFF
    ensures FromUTF8(CodePointToUTF8(cp) + rest) == Some((cp, |CodePointToUTF8(cp)|))
  {
    if cp <= 0x7F {
      assert (CodePointToUTF8(cp) + rest)[0] == CodePointToUTF8(cp)[0];
    } else if cp <= 0x7FF {
      TwoBack(cp, rest);
    } else if cp <= 0xFFFF {
      ThreeBack(cp, rest);
    } else {
      FourBack(cp, rest);
    }
  }

  lemma TwoBack(cp: nat, rest: string)
    requires 0x80 <= cp <= 0x7FF
    ensures FromUTF8(CodePointToUTF8(cp) + rest) == Some((cp, 2))
  {
    hide Tail, IsTail;
    Base64(cp);
    TailIs(cp % 64);
    var e := CodePointToUTF8(cp);
    assert (e + rest)[0] == e[0] && (e + rest)[1] == e[1];
  }

  lemma ThreeBack(cp: nat, rest: string)
    requires 0x800 <= cp <= 0xFFFF
    ensures FromUTF8(CodePointToUTF8(cp) + rest) == Some((cp, 3))
  {
    hide Tail, IsTail;
    Base64(cp);
    TailIs(cp % 64);
    TailIs(cp / 64 % 64);
    var e := CodePointToUTF8(cp);
    assert (e + rest)[0] == e[0] && (e + rest)[1] == e[1] && (e + rest)[2] == e[2];
  }

  lemma FourBack(cp: nat, rest: string)
    requires 0x10000 <= cp <= 0x10FFFF
    ensures FromUTF8(CodePointToUTF8(cp) + rest) == Some((cp, 4))
  {
    hide Tail, IsTail;
    Base64(cp);
    TailIs(cp % 64);
    TailIs(cp / 64 % 64);
    TailIs(cp / 4096 % 64);
    var e := CodePointToUTF8(cp);
    assert (e + rest)[0] == e[0] && (e + rest)[1] == e[1] && (e + rest)[2] == e[2] && (e + rest)[3] == e[3];
  }

  // ---------------------------------------------------------------- unquoting

  function HexValue(c: char): (r: Option<nat>)
    ensures r.Some? ==> r.value < 16
  {
    if '0' <= c <= '9' then Some(c as int - '0' as int)
    else if 'a' <= c <= 'f' then Some(c as int - 'a' as int + 10)
    else if 'A' <= c <= 'F' then Some(c as int - 'A' as int + 10)
    else None
  }

  /** decodeUnicodeEscapeSequence: four hexadecimal digits. */
  function Hex4(s: string): (r: Option<nat>)
    ensures r.Some? ==> r.value <= 0xFFFF && |s| >= 4
  {
    if |s| < 4 then None
    else AddHex(AddHex(AddHex(AddHex(Some(0), s[0]), s[1]), s[2]), s[3])
  }

  function AddHex(u: Option<nat>, c: char): (r: Option<nat>)
    ensures r.Some? ==> u.Some? && r.value <= u.value * 16 + 15
  {
    match u
    case None => None
    case Some(n) =>
      match HexValue(c)
      case None => None
      case Some(d) => Some(n * 16 + d)
  }

  /** decodeUnicodeCodePoint: one escape, or the two of a surrogate pair. What should be the low
      surrogate is not looked at closely. */
  function CodePoint(s: string): (r: Option<(nat, nat)>)
    ensures r.Some? ==> r.value.0 <= 0x10FFFF && 4 <= r.value.1 <= |s|
  {
    match Hex4(s)
    case None => None
    case Some(u) =>
      if 0xD800 <= u <= 0xDBFF then
        if |s| < 10 || s[4] != '\\' || s[5] != 'u' then None
        else
          (match Hex4(s[6..])
           case None => None
           case Some(v) => Some((0x10000 + u % 0x400 * 0x400 + v % 0x400, 10)))
      else Some((u, 4))
  }

  function ShortEscape(c: char): Option<char> {
    if c == '"' || c == '/' || c == '\\' then Some(c)
    else if c == 'b' then Some(BS)
    else if c == 'f' then Some(FF)
    else if c == 'n' then Some('\n')
    else if c == 'r' then Some('\r')
    else if c == 't' then Some('\t')
    else None
  }

  function Prepend(text: string, more: Option<string>): Option<string> {
    match more case None => None case Some(s) => Some(text + s)
  }

  /** What stands between the quotes of a string token. */
  function Decode(s: string): Option<string>
    decreases |s|
  {
    if s == "" || s[0] == '"' then Some("")
    else if s[0] != '\\' then Prepend([s[0]], Decode(s[1..]))
    else if |s| == 1 then None
    else if s[1] == 'u' then
      match CodePoint(s[2..])
      case None => None
      case Some(u) => Prepend(CodePointToUTF8(u.0), Decode(s[2 + u.1..]))
    else
      match ShortEscape(s[1])
      case None => None
      case Some(c) => Prepend([c], Decode(s[2..]))
  }

  /** Where a string token ends: the first quote that no backslash stands before. */
  function StringEnd(s: string): (r: Option<nat>)
    ensures r.Some? ==> r.value < |s| && s[r.value] == '"'
    decreases |s|
  {
    if s == "" then None
    else if s[0] == '"' then Some(0)
    else
      var n := if s[0] == '\\' then 2 else 1;
      if |s| < n then None
      else
        match StringEnd(s[n..])
        case None => None
        case Some(i) => Some(n + i)
  }
}
