/** Quoting and splitting in redis/sds.c: `sdscatrepr` and `sdssplitargs`, in the "C" locale. */
module SdsQuote {
  import opened Options

  // ---------------------------------------------------------------- characters

  predicate IsSpace(c: char) { c == ' ' || '\t' <= c <= '\r' }

  predicate IsPrint(c: char) { ' ' <= c <= '~' }

  const BELL: char := 7 as char
  const BACKSPACE: char := 8 as char

  predicate IsByte(c: char) { c as int < 256 }

  predicate IsHexDigit(c: char) { '0' <= c <= '9' || 'a' <= c <= 'f' || 'A' <= c <= 'F' }

  function HexDigitToInt(c: char): (n: nat)
    ensures n < 16
  {
    if '0' <= c <= '9' then c as int - '0' as int
    else if 'a' <= c <= 'f' then c as int - 'a' as int + 10
    else if 'A' <= c <= 'F' then c as int - 'A' as int + 10
    else 0
  }

  /** A digit of `%02x`. */
  function HexDigit(n: nat): (c: char)
    requires n < 16
    ensures IsHexDigit(c) && HexDigitToInt(c) == n && IsPrint(c) && c == "0123456789abcdef"[n]
  {
    if n < 10 then ('0' as int + n) as char else ('a' as int + n - 10) as char
  }

  // ---------------------------------------------------------------- quoting

  function Escape(c: char): string
    requires IsByte(c)
  {
    if c == '\\' || c == '"' then ['\\', c]
    else if c == '\n' then "\\n"
    else if c == '\r' then "\\r"
    else if c == '\t' then "\\t"
    else if c == BELL then "\\a"
    else if c == BACKSPACE then "\\b"
    else if IsPrint(c) then [c]
    else ['\\', 'x', HexDigit(c as int / 16), HexDigit(c as int % 16)]
  }

  predicate IsBytes(s: string) { forall i :: 0 <= i < |s| ==> IsByte(s[i]) }

  function Escapes(s: string): string
    requires IsBytes(s)
  {
    if s == "" then "" else Escape(s[0]) + Escapes(s[1..])
  }

  function Repr(s: string): string
    requires IsBytes(s)
  {
    "\"" + Escapes(s) + "\""
  }

  lemma {:induction false} EscapesSnoc(s: string, c: char)
    requires IsBytes(s) && IsByte(c)
    ensures Escapes(s + [c]) == Escapes(s) + Escape(c)
    decreases |s|
  {
    hide Escape;
    if s == "" {
      assert [c][1..] == "" && "" + [c] == [c];
    } else {
      assert (s + [c])[1..] == s[1..] + [c];
      EscapesSnoc(s[1..], c);
    }
  }

  lemma EscapePrints(c: char)
    requires IsByte(c)
    ensures forall d :: d in Escape(c) ==> IsPrint(d)
  {
  }

  lemma {:induction false} EscapesPrint(s: string)
    requires IsBytes(s)
    ensures forall d :: d in Escapes(s) ==> IsPrint(d)
    decreases |s|
  {
    hide Escape, IsPrint;
    if s != "" {
      EscapePrints(s[0]);
      EscapesPrint(s[1..]);
    }
  }

  /** A quoted string can be stored as a line of text: it has no null byte and no line end. */
  lemma ReprIsPrintable(s: string)
    requires IsBytes(s)
    ensures forall c :: c in Repr(s) ==> IsPrint(c)
  {
    hide Escapes;
    EscapesPrint(s);
  }

  method SdsCatRepr(s: string, p: string) returns (r: string)
    requires IsBytes(p)
    ensures r == s + Repr(p)
  {
    hide Escapes;
    r := s + "\"";
    NoEscapes();
    for i := 0 to |p|
      invariant r == s + "\"" + Escapes(p[..i])
    {
      EscapesSnoc(p[..i], p[i]);
      assert p[..i] + [p[i]] == p[..i + 1];
      var c := p[i];
      if c == '\\' || c == '"' { r := r + ['\\', c]; }
      else if c == '\n' { r := r + "\\n"; }
      else if c == '\r' { r := r + "\\r"; }
      else if c == '\t' { r := r + "\\t"; }
      else if c == BELL { r := r + "\\a"; }
      else if c == BACKSPACE { r := r + "\\b"; }
      else if IsPrint(c) { r := r + [c]; }
      else { r := r + ['\\', 'x', HexDigit(c as int / 16), HexDigit(c as int % 16)]; }
    }
    r := r + "\"";
    assert p[..|p|] == p;
  }

  lemma NoEscapes()
    ensures Escapes("") == ""
  {
  }

  // ---------------------------------------------------------------- splitting

  datatype Mode = Bare | Quoted | SingleQuoted

  function Unescape(c: char): char {
    if c == 'n' then '\n'
    else if c == 'r' then '\r'
    else if c == 't' then '\t'
    else if c == 'b' then BACKSPACE
    else if c == 'a' then BELL
    else c
  }

  /** The rest of a token, and what follows it; None for quotes that are left open or run into
      the next token. */
  function Token(s: string, mode: Mode, cur: string): (r: Option<(string, string)>)
    ensures r.Some? ==> |r.value.1| <= |s|
    ensures r.Some? && mode == Bare && s != "" ==> |r.value.1| < |s|
    decreases |s|
  {
    match mode
    case Quoted =>
      if |s| >= 4 && s[0] == '\\' && s[1] == 'x' && IsHexDigit(s[2]) && IsHexDigit(s[3]) then
        Token(s[4..], Quoted, cur + [(HexDigitToInt(s[2]) * 16 + HexDigitToInt(s[3])) as char])
      else if |s| >= 2 && s[0] == '\\' then Token(s[2..], Quoted, cur + [Unescape(s[1])])
      else if s == "" then None
      else if s[0] == '"' then
        if |s| >= 2 && !IsSpace(s[1]) then None else Some((cur, s[1..]))
      else Token(s[1..], Quoted, cur + [s[0]])
    case SingleQuoted =>
      if |s| >= 2 && s[0] == '\\' && s[1] == '\'' then Token(s[2..], SingleQuoted, cur + "'")
      else if s == "" then None
      else if s[0] == '\'' then
        if |s| >= 2 && !IsSpace(s[1]) then None else Some((cur, s[1..]))
      else Token(s[1..], SingleQuoted, cur + [s[0]])
    case Bare =>
      if s == "" then Some((cur, ""))
      else if s[0] == ' ' || s[0] == '\n' || s[0] == '\r' || s[0] == '\t' then Some((cur, s[1..]))
      else if s[0] == '"' then Token(s[1..], Quoted, cur)
      else if s[0] == '\'' then Token(s[1..], SingleQuoted, cur)
      else Token(s[1..], Bare, cur + [s[0]])
  }

  function SkipBlanks(s: string): (r: string)
    ensures |r| <= |s|
  {
    if s != "" && IsSpace(s[0]) then SkipBlanks(s[1..]) else s
  }

  function Split(s: string): Option<seq<string>>
    decreases |s|
  {
    var t := SkipBlanks(s);
    if t == "" then Some([])
    else
      match Token(t, Bare, "")
      case None => None
      case Some(token) => Cons(token.0, Split(token.1))
  }

  function Cons(a: string, more: Option<seq<string>>): Option<seq<string>> {
    match more case None => None case Some(xs) => Some([a] + xs)
  }

  ghost function Append(vector: seq<string>, more: Option<seq<string>>): Option<seq<string>> {
    match more case None => None case Some(xs) => Some(vector + xs)
  }

  lemma AppendCons(vector: seq<string>, a: string, more: Option<seq<string>>)
    ensures Append(vector, Cons(a, more)) == Append(vector + [a], more)
  {
    if more.Some? { assert vector + ([a] + more.value) == vector + [a] + more.value; }
  }

  /** sdssplitargs: `line` is a C string, without its null byte. */
  method SdsSplitArgs(line: string) returns (vector: Option<seq<string>>)
    requires '\0' !in line
    ensures vector == Split(line)
  {
    hide Token;
    var p := 0;
    var v: seq<string> := [];
    assert line[0..] == line;
    assert Append([], Split(line)) == Split(line) by {
      if Split(line).Some? { assert [] + Split(line).value == Split(line).value; }
    }
    while true
      invariant 0 <= p <= |line| && Split(line) == Append(v, Split(line[p..]))
      decreases |line| - p
    {
      ghost var start := p;
      p := Blanks(line, p);
      if p < |line| {
        var token := OneToken(line, p);
        if token == None { return None; }
        AppendCons(v, token.value.0, Split(line[token.value.1..]));
        v := v + [token.value.0];
        p := token.value.1;
      } else {
        assert v + [] == v;
        return Some(v);
      }
    }
  }

  method Blanks(line: string, start: nat) returns (p: nat)
    requires start <= |line|
    ensures start <= p <= |line| && line[p..] == SkipBlanks(line[start..])
  {
    p := start;
    while p < |line| && IsSpace(line[p])
      invariant start <= p <= |line| && SkipBlanks(line[p..]) == SkipBlanks(line[start..])
    {
      assert line[p..][1..] == line[p + 1..];
      p := p + 1;
    }
  }

  lemma Suffixes(line: string, p: nat, n: nat)
    requires p + n <= |line|
    ensures line[p..][n..] == line[p + n..] && forall i :: 0 <= i < n ==> line[p..][i] == line[p + i]
  {
  }

  /** One turn of the inner loop, between double quotes. */
  lemma QuotedStep(line: string, p: nat, cur: string)
    requires p <= |line|
    ensures Token(line[p..], Quoted, cur) ==
      if p + 3 < |line| && line[p] == '\\' && line[p + 1] == 'x' && IsHexDigit(line[p + 2]) && IsHexDigit(line[p + 3]) then
        Token(line[p + 4..], Quoted, cur + [(HexDigitToInt(line[p + 2]) * 16 + HexDigitToInt(line[p + 3])) as char])
      else if p + 1 < |line| && line[p] == '\\' then Token(line[p + 2..], Quoted, cur + [Unescape(line[p + 1])])
      else if p == |line| then None
      else if line[p] == '"' then
        if p + 1 < |line| && !IsSpace(line[p + 1]) then None else Some((cur, line[p + 1..]))
      else Token(line[p + 1..], Quoted, cur + [line[p]])
  {
    hide IsHexDigit, HexDigitToInt, Unescape, IsSpace;
    if p + 4 <= |line| { Suffixes(line, p, 4); }
    if p + 2 <= |line| { Suffixes(line, p, 2); }
    if p + 1 <= |line| { Suffixes(line, p, 1); }
  }

  lemma SingleStep(line: string, p: nat, cur: string)
    requires p <= |line|
    ensures Token(line[p..], SingleQuoted, cur) ==
      if p + 1 < |line| && line[p] == '\\' && line[p + 1] == '\'' then Token(line[p + 2..], SingleQuoted, cur + "'")
      else if p == |line| then None
      else if line[p] == '\'' then
        if p + 1 < |line| && !IsSpace(line[p + 1]) then None else Some((cur, line[p + 1..]))
      else Token(line[p + 1..], SingleQuoted, cur + [line[p]])
  {
    hide IsSpace;
    if p + 2 <= |line| { Suffixes(line, p, 2); }
    if p + 1 <= |line| { Suffixes(line, p, 1); }
  }

  lemma BareStep(line: string, p: nat, cur: string)
    requires p <= |line|
    ensures Token(line[p..], Bare, cur) ==
      if p == |line| then Some((cur, ""))
      else if line[p] == ' ' || line[p] == '\n' || line[p] == '\r' || line[p] == '\t' then Some((cur, line[p + 1..]))
      else if line[p] == '"' then Token(line[p + 1..], Quoted, cur)
      else if line[p] == '\'' then Token(line[p + 1..], SingleQuoted, cur)
      else Token(line[p + 1..], Bare, cur + [line[p]])
  {
    if p + 1 <= |line| { Suffixes(line, p, 1); }
  }

  /** The inner loop: a token and the place behind it. */
  method OneToken(line: string, start: nat) returns (r: Option<(string, nat)>)
    requires start < |line|
    ensures match Token(line[start..], Bare, "")
            case None => r == None
            case Some(t) => r.Some? && start < r.value.1 <= |line| && r.value.0 == t.0 && line[r.value.1..] == t.1
  {
    hide Token, IsHexDigit, HexDigitToInt, Unescape, IsSpace;
    var p, current := start, "";
    var inq, insq := false, false;
    ghost var whole := Token(line[start..], Bare, "");
    while true
      invariant start <= p <= |line| && !(inq && insq)
      invariant whole == Token(line[p..], if inq then Quoted else if insq then SingleQuoted else Bare, current)
      decreases |line| - p
    {
      if inq {
        QuotedStep(line, p, current);
        if p + 3 < |line| && line[p] == '\\' && line[p + 1] == 'x' && IsHexDigit(line[p + 2]) && IsHexDigit(line[p + 3]) {
          current := current + [(HexDigitToInt(line[p + 2]) * 16 + HexDigitToInt(line[p + 3])) as char];
          p := p + 3;
        } else if p + 1 < |line| && line[p] == '\\' {
          p := p + 1;
          current := current + [Unescape(line[p])];
        } else if p == |line| {
          return None;
        } else if line[p] == '"' {
          if p + 1 < |line| && !IsSpace(line[p + 1]) { return None; }
          return Some((current, p + 1));
        } else {
          current := current + [line[p]];
        }
      } else if insq {
        SingleStep(line, p, current);
        if p + 1 < |line| && line[p] == '\\' && line[p + 1] == '\'' {
          p := p + 1;
          current := current + "'";
        } else if p == |line| {
          return None;
        } else if line[p] == '\'' {
          if p + 1 < |line| && !IsSpace(line[p + 1]) { return None; }
          return Some((current, p + 1));
        } else {
          current := current + [line[p]];
        }
      } else {
        BareStep(line, p, current);
        if p == |line| {
          return Some((current, p));
        } else if line[p] == ' ' || line[p] == '\n' || line[p] == '\r' || line[p] == '\t' {
          return Some((current, p + 1));
        } else if line[p] == '"' {
          inq := true;
        } else if line[p] == '\'' {
          insq := true;
        } else {
          current := current + [line[p]];
        }
      }
      p := p + 1;
    }
  }

  // ---------------------------------------------------------------- inverse

  /** The end of a token: nothing, or a blank. */
  predicate Separated(rest: string) { rest != "" ==> IsSpace(rest[0]) }

  /** An escaped byte is read as that byte, whatever follows. */
  lemma EscapeRead(c: char, rest: string, cur: string)
    requires IsByte(c)
    ensures Token(Escape(c) + rest, Quoted, cur) == Token(rest, Quoted, cur + [c])
  {
    var e := Escape(c);
    var s := e + rest;
    assert s[|e|..] == rest;
    assert forall i :: 0 <= i < |e| ==> s[i] == e[i];
    if |e| == 4 {
      assert HexDigitToInt(s[2]) * 16 + HexDigitToInt(s[3]) == c as int;
    }
  }

  lemma {:induction false} EscapesRead(a: string, rest: string, cur: string)
    requires IsBytes(a) && Separated(rest)
    ensures Token(Escapes(a) + "\"" + rest, Quoted, cur) == Some((cur + a, rest))
    decreases |a|
  {
    hide Escape, IsSpace;
    if a == "" {
      var s := "\"" + rest;
      assert Escapes(a) + "\"" + rest == s && s[1..] == rest && cur + "" == cur;
      assert |s| >= 2 ==> s[1] == rest[0];
    } else {
      var more := Escapes(a[1..]) + "\"" + rest;
      assert Escapes(a) + "\"" + rest == Escape(a[0]) + more;
      EscapeRead(a[0], more, cur);
      EscapesRead(a[1..], rest, cur + [a[0]]);
      assert cur + [a[0]] + a[1..] == cur + a;
    }
  }

  lemma ReprRead(a: string, rest: string)
    requires IsBytes(a) && Separated(rest)
    ensures Split(Repr(a) + rest) == Cons(a, Split(rest))
  {
    hide Escapes;
    var s := Repr(a) + rest;
    assert s[1..] == Escapes(a) + "\"" + rest;
    EscapesRead(a, rest, "");
    assert "" + a == a;
    assert SkipBlanks(s) == s;
  }

  predicate AllBytes(args: seq<string>) { forall i :: 0 <= i < |args| ==> IsBytes(args[i]) }

  /** The quoted arguments, with a space between. */
  function Joined(args: seq<string>): string
    requires AllBytes(args)
  {
    if args == [] then ""
    else if |args| == 1 then Repr(args[0])
    else Repr(args[0]) + " " + Joined(args[1..])
  }

  /** Whatever the bytes of the arguments are, they come back. */
  lemma {:induction false} SplitJoined(args: seq<string>)
    requires AllBytes(args)
    ensures Split(Joined(args)) == Some(args)
    decreases |args|
  {
    hide Repr;
    if args == [] {
    } else if |args| == 1 {
      ReprRead(args[0], "");
      assert Repr(args[0]) + "" == Repr(args[0]) && [args[0]] + [] == args;
    } else {
      var rest := " " + Joined(args[1..]);
      assert Joined(args) == Repr(args[0]) + rest;
      ReprRead(args[0], rest);
      SpaceFirst(Joined(args[1..]));
      SplitJoined(args[1..]);
      assert args == [args[0]] + args[1..];
    }
  }

  lemma SpaceFirst(s: string)
    ensures Split(" " + s) == Split(s)
  {
    assert (" " + s)[1..] == s;
  }
}
