/** JSON values and text: the reading of jsoncpp/json_reader.cpp as a recursive descent over the
    text, and the tokens of a value. */
module Json {
  import opened Options
  import CStrings
  import opened Decimal
  import opened Integers
  import opened JsonText
  import opened JsonNumber

  // ---------------------------------------------------------------- values

  datatype Member = Member(name: string, value: Json)

  /** Values without reals. Strings and names are C strings to everyone who looks at them; the
      members of an object are in the order of its map. */
  datatype Json =
    | Null
    | Bool(b: bool)
    | Int(n: int)
    | UInt(n: int)
    | Str(s: string)
    | Arr(elements: seq<Json>)
    | Obj(members: seq<Member>)

  /** strcmp, on strings without null bytes. */
  predicate Less(a: string, b: string) {
    b != "" && (a == "" || a[0] < b[0] || (a[0] == b[0] && Less(a[1..], b[1..])))
  }

  lemma {:induction false} LessTotal(a: string, b: string)
    ensures a == b || Less(a, b) || Less(b, a)
    ensures !(Less(a, b) && (Less(b, a) || a == b))
    decreases |a|
  {
    if a != "" && b != "" && a[0] == b[0] {
      LessTotal(a[1..], b[1..]);
      assert a == [a[0]] + a[1..] && b == [b[0]] + b[1..];
    }
  }

  lemma {:induction false} LessTransitive(a: string, b: string, c: string)
    requires Less(a, b) && Less(b, c)
    ensures Less(a, c)
    decreases |a|
  {
    if a != "" && a[0] == b[0] && b[0] == c[0] { LessTransitive(a[1..], b[1..], c[1..]); }
  }

  /** Assignment to `object[name]`. */
  function Put(ms: seq<Member>, m: Member): (r: seq<Member>)
    ensures r != []
  {
    if ms == [] || Less(m.name, ms[0].name) then [m] + ms
    else if m.name == ms[0].name then [m] + ms[1..]
    else [ms[0]] + Put(ms[1..], m)
  }

  ghost predicate Sorted(ms: seq<Member>) {
    forall i, j :: 0 <= i < j < |ms| ==> Less(ms[i].name, ms[j].name)
  }

  /** The map keeps its order, and there is one member with the name: the new one. */
  lemma {:induction false} PutSorted(ms: seq<Member>, m: Member)
    requires Sorted(ms)
    ensures Sorted(Put(ms, m)) && m in Put(ms, m)
    ensures forall x :: x in Put(ms, m) <==> x == m || (x in ms && x.name != m.name)
    decreases |ms|
  {
    if ms != [] {
      var rest := ms[1..];
      LessTotal(m.name, ms[0].name);
      forall x | x in rest ensures Less(ms[0].name, x.name) && x in ms {
        var i :| 0 <= i < |rest| && rest[i] == x;
        assert ms[i + 1] == x;
      }
      if Less(m.name, ms[0].name) {
        PutFirst(ms, m);
      } else if m.name == ms[0].name {
        PutInstead(ms, m);
      } else {
        PutSorted(rest, m);
        PutLater(ms, m);
      }
    }
  }

  lemma PutFirst(ms: seq<Member>, m: Member)
    requires Sorted(ms) && ms != [] && Less(m.name, ms[0].name)
    ensures Sorted([m] + ms) && forall x :: x in ms ==> x.name != m.name
  {
    forall x | x in ms ensures Less(m.name, x.name) && x.name != m.name {
      var i :| 0 <= i < |ms| && ms[i] == x;
      if i > 0 { LessTransitive(m.name, ms[0].name, ms[i].name); }
      LessTotal(m.name, x.name);
    }
  }

  lemma PutInstead(ms: seq<Member>, m: Member)
    requires Sorted(ms) && ms != [] && m.name == ms[0].name
    ensures Sorted([m] + ms[1..]) && forall x :: x in ms[1..] ==> x.name != m.name
  {
    forall x | x in ms[1..] ensures x.name != m.name {
      var i :| 0 <= i < |ms[1..]| && ms[1..][i] == x;
      LessTotal(ms[0].name, ms[i + 1].name);
    }
  }

  lemma PutLater(ms: seq<Member>, m: Member)
    requires Sorted(ms) && ms != [] && Less(ms[0].name, m.name) && Sorted(Put(ms[1..], m))
    requires forall x :: x in Put(ms[1..], m) <==> x == m || (x in ms[1..] && x.name != m.name)
    ensures Sorted([ms[0]] + Put(ms[1..], m)) && ms[0].name != m.name
  {
    LessTotal(ms[0].name, m.name);
    hide Less, Put;
    var r := Put(ms[1..], m);
    forall i | 0 <= i < |r| ensures Less(ms[0].name, r[i].name) {
      assert r[i] in r;
      if r[i] != m {
        var j :| 0 <= j < |ms[1..]| && ms[1..][j] == r[i];
        assert ms[j + 1] == r[i];
      }
    }
  }

  /** Members that come in order are put at the end. */
  lemma {:induction false} PutLast(ms: seq<Member>, m: Member)
    requires forall x :: x in ms ==> Less(x.name, m.name)
    ensures Put(ms, m) == ms + [m]
    decreases |ms|
  {
    if ms != [] {
      assert ms[0] in ms;
      LessTotal(ms[0].name, m.name);
      forall x | x in ms[1..] ensures Less(x.name, m.name) { assert x in ms; }
      PutLast(ms[1..], m);
      assert ms == [ms[0]] + ms[1..];
    }
  }

  // ---------------------------------------------------------------- tokens

  datatype TokenType =
    | ObjectBegin | ObjectEnd | ArrayBegin | ArrayEnd
    | StringToken | NumberToken | TrueToken | FalseToken | NullToken
    | ArraySeparator | MemberSeparator | Comment | EndOfStream | ErrorToken

  datatype Token = Token(kind: TokenType, text: string, rest: string)

  predicate IsBlank(c: char) { c == ' ' || c == '\t' || c == '\r' || c == '\n' }

  function SkipSpaces(s: string): (r: string)
    ensures |r| <= |s| && (r != "" ==> !IsBlank(r[0]))
  {
    if s != "" && IsBlank(s[0]) then SkipSpaces(s[1..]) else s
  }

  function NumberLength(s: string): (n: nat)
    ensures n <= |s| && (forall i :: 0 <= i < n ==> IsNumberChar(s[i])) && (n < |s| ==> !IsNumberChar(s[n]))
  {
    if s == "" || !IsNumberChar(s[0]) then 0 else 1 + NumberLength(s[1..])
  }

  /** The token types that one character makes out. */
  function OneChar(c: char): Option<TokenType> {
    if c == '{' then Some(ObjectBegin)
    else if c == '}' then Some(ObjectEnd)
    else if c == '[' then Some(ArrayBegin)
    else if c == ']' then Some(ArrayEnd)
    else if c == ',' then Some(ArraySeparator)
    else if c == ':' then Some(MemberSeparator)
    else if c == '/' then Some(Comment)
    else if c == '\0' then Some(EndOfStream)
    else None
  }

  function Cut(u: string, n: nat, kind: TokenType): Token
    requires n <= |u|
  {
    Token(kind, u[..n], u[n..])
  }

  /** readToken; comments are told apart but not read. */
  function ReadToken(s: string): (t: Token)
    ensures |t.rest| <= |s|
    ensures t.kind != EndOfStream ==> |t.rest| < |s|
    ensures t.kind == NumberToken ==> IsNumberToken(t.text)
    ensures t.kind == StringToken ==> |t.text| >= 2
  {
    var u := SkipSpaces(s);
    if u == "" then Token(EndOfStream, "", "")
    else if OneChar(u[0]).Some? then Cut(u, 1, OneChar(u[0]).value)
    else if u[0] == '"' then
      match StringEnd(u[1..])
      case None => Token(ErrorToken, u, "")
      case Some(n) => Cut(u, n + 2, StringToken)
    else if IsDigit(u[0]) || u[0] == '-' then Cut(u, 1 + NumberLength(u[1..]), NumberToken)
    else Word(u)
  }

  const TRUE: string := ['t', 'r', 'u', 'e']
  const FALSE: string := ['f', 'a', 'l', 's', 'e']
  const NULL: string := ['n', 'u', 'l', 'l']

  function Word(u: string): Token
    requires u != ""
  {
    if TRUE <= u then Cut(u, 4, TrueToken)
    else if FALSE <= u then Cut(u, 5, FalseToken)
    else if NULL <= u then Cut(u, 4, NullToken)
    else Cut(u, 1, ErrorToken)
  }

  // ---------------------------------------------------------------- reading

  /** A value and the text behind it; a failure; or something this model has no value for: a real
      number, or a comment. */
  datatype Read = Got(value: Json, rest: string) | Bad | Unmodelled

  function NumberValue(n: Number): Option<Json> {
    match n
    case Signed64(i) => Some(Int(i))
    case Unsigned64(i) => Some(UInt(i))
    case Double => None
  }

  /** What stands between the quotes. */
  function Inner(text: string): string
    requires |text| >= 2
  {
    text[1..|text| - 1]
  }

  function ReadValue(s: string): (r: Read)
    ensures r.Got? ==> |r.rest| < |s|
    decreases |s|, 0
  {
    var t := ReadToken(s);
    match t.kind
    case ObjectBegin => ReadMembers(t.rest, "", [])
    case ArrayBegin =>
      var u := SkipSpaces(t.rest);
      if u != "" && u[0] == ']' then Got(Arr([]), u[1..]) else ReadElements(t.rest, [])
    case NumberToken =>
      (match NumberValue(Decoded(t.text))
       case None => Unmodelled
       case Some(v) => Got(v, t.rest))
    case StringToken =>
      (match Decode(Inner(t.text))
       case None => Bad
       case Some(text) => Got(Str(CStrings.CString(text)), t.rest))
    case TrueToken => Got(Bool(true), t.rest)
    case FalseToken => Got(Bool(false), t.rest)
    case NullToken => Got(Null, t.rest)
    case Comment => Unmodelled
    case _ => Bad
  }

  /** readArray, once the array is known not to be empty. */
  function ReadElements(s: string, es: seq<Json>): (r: Read)
    ensures r.Got? ==> |r.rest| < |s|
    decreases |s|, 1
  {
    match ReadValue(s)
    case Bad => Bad
    case Unmodelled => Unmodelled
    case Got(v, rest) =>
      var t := ReadToken(rest);
      match t.kind
      case ArraySeparator => ReadElements(t.rest, es + [v])
      case ArrayEnd => Got(Arr(es + [v]), t.rest)
      case Comment => Unmodelled
      case _ => Bad
  }

  /** readObject. A closing brace is accepted where a name should be as long as `name`, the name
      read last, is empty. */
  function ReadMembers(s: string, name: string, ms: seq<Member>): (r: Read)
    ensures r.Got? ==> |r.rest| < |s|
    decreases |s|, 0
  {
    var t := ReadToken(s);
    if t.kind == Comment then Unmodelled
    else if t.kind == ObjectEnd && name == "" then Got(Obj(ms), t.rest)
    else if t.kind != StringToken then Bad
    else
      match Decode(Inner(t.text))
      case None => Bad
      case Some(name') =>
        var colon := ReadToken(t.rest);
        if colon.kind != MemberSeparator then Bad
        else
          match ReadValue(colon.rest)
          case Bad => Bad
          case Unmodelled => Unmodelled
          case Got(v, rest) =>
            var comma := ReadToken(rest);
            var ms' := Put(ms, Member(CStrings.CString(name'), v));
            match comma.kind
            case ObjectEnd => Got(Obj(ms'), comma.rest)
            case ArraySeparator => ReadMembers(comma.rest, name', ms')
            case Comment => Unmodelled
            case _ => Bad
  }

  /** Reader::parse: what follows the value is not looked at. */
  function Parse(s: string): Option<Json> {
    var r := ReadValue(s);
    if r.Got? then Some(r.value) else None
  }

  // ---------------------------------------------------------------- the tokens of a value

  function Tokens(v: Json): seq<string> {
    match v
    case Null => [NULL]
    case Bool(b) => [if b then TRUE else FALSE]
    case Int(n) => [Show(n)]
    case UInt(n) => [Show(n)]
    case Str(s) => [Quoted(CStrings.CString(s))]
    case Arr(es) => ["["] + ElementTokens(es) + ["]"]
    case Obj(ms) => ["{"] + MemberTokens(ms) + ["}"]
  }

  function ElementTokens(es: seq<Json>): seq<string> {
    if es == [] then [] else Tokens(es[0]) + Comma(es[1..] != []) + ElementTokens(es[1..])
  }

  function MemberTokens(ms: seq<Member>): seq<string> {
    if ms == [] then []
    else [Quoted(ms[0].name), ":"] + Tokens(ms[0].value) + Comma(ms[1..] != []) + MemberTokens(ms[1..])
  }

  function Comma(more: bool): seq<string> { if more then [","] else [] }

  /** The text behind the tokens `ts`, if `s` starts with them, with blanks before any of them. */
  function Consume(ts: seq<string>, s: string): Option<string>
    decreases |ts|
  {
    if ts == [] then Some(s)
    else
      var u := SkipSpaces(s);
      if ts[0] <= u then Consume(ts[1..], u[|ts[0]|..]) else None
  }

  lemma {:induction false} ConsumeConcat(ts: seq<string>, us: seq<string>, s: string)
    ensures Consume(ts + us, s) == match Consume(ts, s) case None => None case Some(mid) => Consume(us, mid)
    decreases |ts|
  {
    if ts == [] {
      assert ts + us == us;
    } else {
      assert (ts + us)[1..] == ts[1..] + us && (ts + us)[0] == ts[0];
      var u := SkipSpaces(s);
      if ts[0] <= u { ConsumeConcat(ts[1..], us, u[|ts[0]|..]); }
    }
  }

  lemma {:induction false} SkipSpacesMore(a: string, b: string)
    requires SkipSpaces(a) != ""
    ensures SkipSpaces(a + b) == SkipSpaces(a) + b
    decreases |a|
  {
    if IsBlank(a[0]) {
      assert (a + b)[1..] == a[1..] + b;
      SkipSpacesMore(a[1..], b);
    }
  }

  ghost predicate NoneEmpty(ts: seq<string>) { forall i :: 0 <= i < |ts| ==> ts[i] != "" }

  /** More text behind the tokens. */
  lemma {:induction false} ConsumeMore(ts: seq<string>, a: string, b: string)
    requires NoneEmpty(ts) && Consume(ts, a).Some?
    ensures Consume(ts, a + b) == Some(Consume(ts, a).value + b)
    decreases |ts|
  {
    if ts != [] {
      var u := SkipSpaces(a);
      assert ts[0] <= u && ts[0] != "";
      SkipSpacesMore(a, b);
      assert (u + b)[|ts[0]|..] == u[|ts[0]|..] + b;
      ConsumeMore(ts[1..], u[|ts[0]|..], b);
    }
  }

  lemma {:induction false} SkipBlanks(w: string, s: string)
    requires forall c :: c in w ==> IsBlank(c)
    ensures SkipSpaces(w + s) == SkipSpaces(s)
    decreases |w|
  {
    if w == "" {
      assert w + s == s;
    } else {
      assert w[0] in w && (w + s)[1..] == w[1..] + s;
      forall c | c in w[1..] ensures IsBlank(c) { assert c in w; }
      SkipBlanks(w[1..], s);
    }
  }

  // ---------------------------------------------------------------- reading the tokens

  /** No more of a number. */
  predicate Ends(rest: string) { rest != "" ==> !IsNumberChar(rest[0]) }

  lemma EndsBefore(t: string, ts: seq<string>, s: string)
    requires t != "" && !IsNumberChar(t[0]) && Consume([t] + ts, s).Some?
    ensures Ends(s)
  {
    assert ([t] + ts)[0] == t;
  }

  lemma OneCharRead(c: char, s: string, rest: string)
    requires OneChar(c).Some? && Consume([[c]], s) == Some(rest)
    ensures ReadToken(s) == Token(OneChar(c).value, [c], rest)
  {
    assert [[c]][1..] == [];
    assert SkipSpaces(s)[..1] == [c];
  }

  lemma NumberLengthIs(s: string, n: nat)
    requires n <= |s| && (forall i :: 0 <= i < n ==> IsNumberChar(s[i])) && (n < |s| ==> !IsNumberChar(s[n]))
    ensures NumberLength(s) == n
  {
  }

  lemma NumberRead(x: string, s: string, rest: string)
    requires IsNumberToken(x) && Consume([x], s) == Some(rest) && Ends(rest)
    ensures ReadToken(s) == Token(NumberToken, x, rest)
  {
    var u := SkipSpaces(s);
    assert [x][1..] == [] && u == x + rest;
    assert u[1..] == x[1..] + rest;
    NumberLengthIs(u[1..], |x| - 1);
    assert u[..|x|] == x;
  }

  lemma WordRead(w: string, s: string, rest: string)
    requires w in {TRUE, FALSE, NULL} && Consume([w], s) == Some(rest)
    ensures ReadToken(s) == Token(if w == TRUE then TrueToken else if w == FALSE then FalseToken else NullToken, w, rest)
  {
    var u := SkipSpaces(s);
    assert [w][1..] == [];
    assert u[0] == w[0] && u[..|w|] == w;
  }

  // ---------------------------------------------------------------- round trip

  /** What a writer can be given: integers of their types, and objects in the order of their maps. */
  ghost predicate Writable(v: Json)
    decreases v
  {
    match v
    case Int(n) => IsLongLong(n)
    case UInt(n) => 0 <= n <= ULLONG_MAX
    case Arr(es) => forall e :: e in es ==> Writable(e)
    case Obj(ms) => Sorted(ms) && forall m :: m in ms ==> '\0' !in m.name && Writable(m.value)
    case _ => true
  }

  /** What is left of a value: C strings, and signed integers only up to 2^31 - 1. */
  function Normal(v: Json): Json
    decreases v
  {
    match v
    case Int(n) => Retyped(n)
    case UInt(n) => Retyped(n)
    case Str(s) => Str(CStrings.CString(s))
    case Arr(es) => Arr(NormalAll(es))
    case Obj(ms) => Obj(NormalMembers(ms))
    case _ => v
  }

  function Retyped(n: int): Json { if n <= INT_MAX then Int(n) else UInt(n) }

  function NormalAll(es: seq<Json>): seq<Json> {
    if es == [] then [] else [Normal(es[0])] + NormalAll(es[1..])
  }

  function NormalMembers(ms: seq<Member>): seq<Member> {
    if ms == [] then [] else [Member(ms[0].name, Normal(ms[0].value))] + NormalMembers(ms[1..])
  }

  /** The first token of a value. */
  lemma FirstToken(v: Json)
    ensures Tokens(v) != [] && Tokens(v)[0] != "" && Tokens(v)[0][0] != ']' && !IsBlank(Tokens(v)[0][0])
  {
    hide Show, Escapes, CStrings.CString;
    match v
    case Int(n) => ShowStarts(n);
    case UInt(n) => ShowStarts(n);
    case _ =>
  }

  lemma ShowStarts(n: int)
    ensures Show(n) != "" && (IsDigit(Show(n)[0]) || Show(n)[0] == '-')
  {
  }

  ghost predicate AllWithin(whole: Json, es: seq<Json>) { forall e :: e in es ==> e < whole && Writable(e) }

  lemma SplitWithin(whole: Json, es: seq<Json>)
    requires es != [] && AllWithin(whole, es)
    ensures es[0] < whole && Writable(es[0]) && AllWithin(whole, es[1..])
  {
    assert es[0] in es && forall x :: x in es[1..] ==> x in es;
  }

  ghost predicate Within(whole: Json, ms: seq<Member>) {
    forall m :: m in ms ==> m.value < whole && Writable(m.value) && '\0' !in m.name
  }

  lemma FirstWithin(whole: Json, ms: seq<Member>)
    requires ms != [] && Within(whole, ms)
    ensures ms[0].value < whole && Writable(ms[0].value) && '\0' !in ms[0].name
  {
    assert ms[0] in ms;
  }

  /** Values that come back as they are. */
  ghost predicate IsNormal(v: Json)
    decreases v
  {
    match v
    case Int(n) => n <= INT_MAX
    case UInt(n) => n > INT_MAX
    case Str(s) => '\0' !in s
    case Arr(es) => forall e :: e in es ==> IsNormal(e)
    case Obj(ms) => forall m :: m in ms ==> IsNormal(m.value)
    case _ => true
  }

  lemma {:induction false} NormalIff(v: Json)
    ensures Normal(v) == v <==> IsNormal(v)
    decreases v
  {
    match v
    case Str(s) => CStrings.WholeCString(s);
    case Arr(es) => NormalAllIff(v, es);
    case Obj(ms) => NormalMembersIff(v, ms);
    case _ =>
  }

  lemma {:induction false} NormalAllIff(whole: Json, es: seq<Json>)
    requires forall e :: e in es ==> e < whole
    ensures NormalAll(es) == es <==> forall e :: e in es ==> IsNormal(e)
    decreases whole, |es|
  {
    hide Normal, IsNormal;
    if es != [] {
      assert es == [es[0]] + es[1..] && es[0] in es;
      NormalIff(es[0]);
      forall e | e in es[1..] ensures e in es {}
      NormalAllIff(whole, es[1..]);
      assert NormalAll(es)[1..] == NormalAll(es[1..]);
    }
  }

  lemma {:induction false} NormalMembersIff(whole: Json, ms: seq<Member>)
    requires forall m :: m in ms ==> m.value < whole
    ensures NormalMembers(ms) == ms <==> forall m :: m in ms ==> IsNormal(m.value)
    decreases whole, |ms|
  {
    hide Normal, IsNormal;
    if ms != [] {
      assert ms == [ms[0]] + ms[1..] && ms[0] in ms;
      NormalIff(ms[0].value);
      forall m | m in ms[1..] ensures m in ms {}
      NormalMembersIff(whole, ms[1..]);
      assert NormalMembers(ms)[1..] == NormalMembers(ms[1..]);
    }
  }
}
