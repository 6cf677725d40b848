/** Reader of jsoncpp/json_reader.cpp, moving through its document: it does what the functions of
    `Json` say, token by token. */
module JsonReader {
  import opened Options
  import opened CStrings
  import Decimal
  import opened JsonText
  import opened JsonNumber
  import opened Json
  import J = Json

  /** How reading a value went: with a real number or a comment there is nothing to say here. */
  datatype Status = Success | Failure | NotModelled

  class Reader {
    const document: string
    var current: nat

    constructor (document: string)
      ensures this.document == document && current == 0
    {
      this.document := document;
      current := 0;
    }

    ghost predicate Valid()
      reads this
    {
      current <= |document|
    }

    ghost function Rest(): string
      requires Valid()
      reads this
    {
      document[current..]
    }

    method SkipSpaces()
      requires Valid()
      modifies this`current
      ensures Valid() && Rest() == J.SkipSpaces(old(Rest())) && current >= old(current)
    {
      while current != |document| && IsBlank(document[current])
        invariant Valid() && current >= old(current) && J.SkipSpaces(Rest()) == J.SkipSpaces(old(Rest()))
      {
        assert Rest()[1..] == document[current + 1..];
        current := current + 1;
      }
    }

    /** match: the rest of a word. */
    method Match(pattern: string) returns (ok: bool)
      requires Valid()
      modifies this`current
      ensures Valid() && ok == (pattern <= old(Rest()))
      ensures current == if ok then old(current) + |pattern| else old(current)
    {
      if |document| - current < |pattern| { return false; }
      var index := |pattern|;
      while index > 0
        invariant 0 <= index <= |pattern|
        invariant forall i :: index <= i < |pattern| ==> document[current + i] == pattern[i]
      {
        index := index - 1;
        if document[current + index] != pattern[index] {
          assert Rest()[index] != pattern[index];
          return false;
        }
      }
      current := current + |pattern|;
      return true;
    }

    method ReadNumber()
      requires Valid()
      modifies this`current
      ensures Valid() && current == old(current) + NumberLength(old(Rest()))
    {
      ghost var s := Rest();
      while current != |document| && IsNumberChar(document[current])
        invariant old(current) <= current <= |document|
        invariant current + NumberLength(Rest()) == old(current) + NumberLength(s)
      {
        assert Rest()[1..] == document[current + 1..];
        current := current + 1;
      }
    }

    /** readString, behind the opening quote. */
    method ReadString() returns (ok: bool)
      requires Valid()
      modifies this`current
      ensures Valid() && ok == StringEnd(old(Rest())).Some?
      ensures current == if ok then old(current) + StringEnd(old(Rest())).value + 1 else |document|
    {
      hide StringEnd;
      ghost var s := Rest();
      ghost var n := 0;
      var c := '\0';
      AddNothing(StringEnd(s));
      while current != |document|
        invariant old(current) <= current <= |document| && n == current - old(current)
        invariant StringEnd(s) == Add(n, StringEnd(Rest()))
      {
        StringStep(document, current, n);
        c := document[current];
        current := current + 1;
        if c == '\\' {
          if current == |document| { return false; }
          current := current + 1;
        } else if c == '"' {
          return true;
        }
        n := current - old(current);
      }
      assert Rest() == "";
      NoStringEnd();
      return false;
    }

    /** readToken: the type of the token, and where it starts; it ends at `current`. */
    method ReadToken() returns (kind: TokenType, start: nat)
      requires Valid()
      modifies this`current
      ensures Valid() && start <= current
      ensures var t := J.ReadToken(old(Rest()));
        kind == t.kind && (kind != Comment && kind != ErrorToken ==> Rest() == t.rest && document[start..current] == t.text)
    {
      hide StringEnd, NumberLength, Word, OneChar, J.SkipSpaces, IsNumberToken;
      SkipSpaces();
      start := current;
      ghost var u := Rest();
      if current == |document| { return EndOfStream, start; }
      var c := document[current];
      current := current + 1;
      assert u[1..] == Rest();
      match OneChar(c) {
        case Some(k) => return k, start;
        case None =>
      }
      if c == '"' {
        var ok := ReadString();
        return if ok then StringToken else ErrorToken, start;
      } else if Decimal.IsDigit(c) || c == '-' {
        ReadNumber();
        return NumberToken, start;
      }
      kind := ReadWord(c, start);
    }

    /** The rest of `true`, `false` or `null`, behind the first letter. */
    method ReadWord(c: char, ghost start: nat) returns (kind: TokenType)
      requires Valid() && start + 1 == current && c == document[start]
      modifies this`current
      ensures Valid() && start <= current
      ensures var t := Word(document[start..]);
        kind == t.kind && (kind != ErrorToken ==> Rest() == t.rest && document[start..current] == t.text)
    {
      ghost var u := document[start..];
      assert u == [c] + Rest();
      var ok := false;
      if c == 't' {
        ok := Match(TRUE[1..]);
        assert TRUE == ['t'] + TRUE[1..];
        kind := TrueToken;
      } else if c == 'f' {
        ok := Match(FALSE[1..]);
        assert FALSE == ['f'] + FALSE[1..];
        kind := FalseToken;
      } else if c == 'n' {
        ok := Match(NULL[1..]);
        assert NULL == ['n'] + NULL[1..];
        kind := NullToken;
      }
      if !ok { kind := ErrorToken; }
    }

    /** decodeNumber, decodeString and the words, as readValue tells them apart. */
    method ReadValue() returns (status: Status, value: Json)
      requires Valid()
      modifies this`current
      ensures Valid() && (status == Success ==> current > old(current))
      ensures Agrees(status, value, J.ReadValue(old(Rest())))
      decreases |document| - current, 0
    {
      hide J.ReadToken, J.ReadMembers, J.ReadElements, Decoded, Decode, IsNumberToken, CString;
      value := Null;
      var kind, start := ReadToken();
      match kind {
        case ObjectBegin =>
          status, value := ReadObject();
        case ArrayBegin =>
          status, value := ReadArray();
        case NumberToken =>
          var number := DecodeNumber(document[start..current]);
          match NumberValue(number) {
            case None => status := NotModelled;
            case Some(v) => status, value := Success, v;
          }
        case StringToken =>
          var text := DecodeString(Inner(document[start..current]));
          match text {
            case None => status := Failure;
            case Some(t) => status, value := Success, Str(CString(t));
          }
        case TrueToken => status, value := Success, Bool(true);
        case FalseToken => status, value := Success, Bool(false);
        case NullToken => status := Success;
        case Comment => status := NotModelled;
        case _ => status := Failure;
      }
    }

    /** What a method and a function make of the same text. */
    ghost predicate Agrees(status: Status, value: Json, r: Read)
      requires Valid()
      reads this
    {
      match r
      case Got(v, rest) => status == Success && value == v && Rest() == rest
      case Bad => status == Failure
      case Unmodelled => status == NotModelled
    }

    method ReadArray() returns (status: Status, value: Json)
      requires Valid()
      modifies this`current
      ensures Valid() && (status == Success ==> current >= old(current))
      ensures var u := J.SkipSpaces(old(Rest()));
              Agrees(status, value, if u != "" && u[0] == ']' then Got(Arr([]), u[1..]) else J.ReadElements(old(Rest()), []))
      decreases |document| - current, 2
    {
      hide J.ReadToken, J.ReadValue, J.ReadElements;
      ghost var s := Rest();
      SkipSpaces();
      if current < |document| && document[current] == ']' {
        current := current + 1;
        return Success, Arr([]);
      }
      ElementsAfterSpaces(s);
      status, value := ReadElements();
    }

    /** The loop of readArray. */
    method ReadElements() returns (status: Status, value: Json)
      requires Valid()
      modifies this`current
      ensures Valid() && (status == Success ==> current >= old(current))
      ensures Agrees(status, value, J.ReadElements(old(Rest()), []))
      decreases |document| - current, 1
    {
      hide J.ReadToken, J.ReadValue, J.ReadElements;
      value := Null;
      var elements: seq<Json> := [];
      ghost var whole := J.ReadElements(Rest(), []);
      while true
        invariant Valid() && current >= old(current) && J.ReadElements(Rest(), elements) == whole
        decreases |document| - current
      {
        ghost var s := Rest();
        ElementsUnfold(s, elements);
        var v;
        status, v := ReadValue();
        if status != Success { return; }
        elements := elements + [v];
        var kind, _ := ReadToken();
        if kind == ArrayEnd {
          return Success, Arr(elements);
        } else if kind == Comment {
          return NotModelled, value;
        } else if kind != ArraySeparator {
          return Failure, value;
        }
      }
    }

    /** readObject: a closing brace may stand where a name should be, while `name` is empty. */
    method ReadObject() returns (status: Status, value: Json)
      requires Valid()
      modifies this`current
      ensures Valid() && (status == Success ==> current >= old(current))
      ensures Agrees(status, value, J.ReadMembers(old(Rest()), "", []))
      decreases |document| - current, 1
    {
      hide J.ReadToken, J.ReadValue, J.ReadMembers, Decode, CString, Put;
      value := Null;
      var name := "";
      var members: seq<Member> := [];
      ghost var whole := J.ReadMembers(Rest(), "", []);
      while true
        invariant Valid() && current >= old(current) && J.ReadMembers(Rest(), name, members) == whole
        decreases |document| - current
      {
        MembersUnfold(Rest(), name, members);
        var kind, start := ReadToken();
        if kind == Comment { return NotModelled, value; }
        if kind == ObjectEnd && name == "" { return Success, Obj(members); }
        if kind != StringToken { return Failure, value; }
        var text := DecodeString(Inner(document[start..current]));
        if text == None { return Failure, value; }
        name := text.value;
        var colon, _ := ReadToken();
        if colon != MemberSeparator { return Failure, value; }
        var v;
        status, v := ReadValue();
        if status != Success { return; }
        members := Put(members, Member(CString(name), v));
        var comma, _ := ReadToken();
        if comma == ObjectEnd {
          return Success, Obj(members);
        } else if comma == Comment {
          return NotModelled, value;
        } else if comma != ArraySeparator {
          return Failure, value;
        }
      }
    }
  }

  ghost function Add(n: nat, end: Option<nat>): Option<nat> {
    match end case None => None case Some(i) => Some(n + i)
  }

  lemma AddNothing(end: Option<nat>)
    ensures Add(0, end) == end
  {
  }

  lemma NoStringEnd()
    ensures StringEnd("") == None
  {
  }

  /** One turn of the loop in readString. */
  lemma StringStep(doc: string, i: nat, n: nat)
    requires i < |doc|
    ensures Add(n, StringEnd(doc[i..])) ==
      if doc[i] == '"' then Some(n)
      else if doc[i] != '\\' then Add(n + 1, StringEnd(doc[i + 1..]))
      else if i + 1 == |doc| then None
      else Add(n + 2, StringEnd(doc[i + 2..]))
  {
    var s := doc[i..];
    assert s[1..] == doc[i + 1..];
    if i + 2 <= |doc| { assert s[2..] == doc[i + 2..]; }
  }

  lemma SkippedOnce(s: string)
    ensures J.SkipSpaces(J.SkipSpaces(s)) == J.SkipSpaces(s)
  {
    if s != "" && IsBlank(s[0]) { SkippedOnce(s[1..]); }
  }

  lemma ElementsUnfold(s: string, es: seq<Json>)
    ensures J.ReadElements(s, es) == ElementAgain(s, es)
  {
    hide J.ReadValue, J.ReadToken;
  }

  /** An element, and what comes behind it. */
  ghost function ElementAgain(s: string, es: seq<Json>): Read {
    var r := J.ReadValue(s);
    if !r.Got? then r
    else
      var t := J.ReadToken(r.rest);
      if t.kind == ArraySeparator then J.ReadElements(t.rest, es + [r.value])
      else if t.kind == ArrayEnd then Got(Arr(es + [r.value]), t.rest)
      else if t.kind == Comment then Unmodelled
      else Bad
  }

  lemma ElementsAfterSpaces(s: string)
    ensures J.ReadElements(J.SkipSpaces(s), []) == J.ReadElements(s, [])
  {
    SkippedOnce(s);
    var u := J.SkipSpaces(s);
    assert J.ReadToken(u) == J.ReadToken(s);
    hide J.ReadToken;
    assert J.ReadValue(u) == J.ReadValue(s);
    hide J.ReadValue;
    ElementsUnfold(u, []);
    ElementsUnfold(s, []);
  }

  lemma MembersUnfold(s: string, name: string, ms: seq<Member>)
    ensures var t := J.ReadToken(s);
      && (t.kind == Comment ==> J.ReadMembers(s, name, ms) == Unmodelled)
      && (t.kind == ObjectEnd && name == "" ==> J.ReadMembers(s, name, ms) == Got(Obj(ms), t.rest))
      && (t.kind != Comment && !(t.kind == ObjectEnd && name == "") && t.kind != StringToken ==>
            J.ReadMembers(s, name, ms) == Bad)
      && (t.kind == StringToken ==> J.ReadMembers(s, name, ms) == MemberAgain(t, ms))
  {
    hide J.ReadToken, J.ReadValue, Decode, CString, Put;
  }

  /** A member, from its name on, and what comes behind it. */
  ghost function MemberAgain(t: Token, ms: seq<Member>): Read
    requires t.kind == StringToken && |t.text| >= 2
  {
    match Decode(Inner(t.text))
    case None => Bad
    case Some(name) =>
      var colon := J.ReadToken(t.rest);
      if colon.kind != MemberSeparator then Bad
      else
        match J.ReadValue(colon.rest)
        case Bad => Bad
        case Unmodelled => Unmodelled
        case Got(v, rest) =>
          var comma := J.ReadToken(rest);
          var ms' := Put(ms, Member(CString(name), v));
          if comma.kind == ObjectEnd then Got(Obj(ms'), comma.rest)
          else if comma.kind == ArraySeparator then J.ReadMembers(comma.rest, name, ms')
          else if comma.kind == Comment then Unmodelled
          else Bad
  }

  // ---------------------------------------------------------------- strings

  method DecodeString(s: string) returns (r: Option<string>)
    ensures r == Decode(s)
  {
    hide Decode, CodePoint, CodePointToUTF8;
    var decoded := "";
    var current := 0;
    assert s[0..] == s;
    PrependNothing(Decode(s));
    while current != |s|
      invariant 0 <= current <= |s| && Decode(s) == Prepend(decoded, Decode(s[current..]))
      decreases |s| - current
    {
      DecodeStep(s, current, decoded);
      var c := s[current];
      current := current + 1;
      if c == '"' {
        assert decoded + "" == decoded;
        return Some(decoded);
      } else if c == '\\' {
        if current == |s| { return None; }
        var escape := s[current];
        current := current + 1;
        if escape == 'u' {
          var unicode := DecodeUnicodeCodePoint(s[current..]);
          if unicode == None { return None; }
          decoded := decoded + CodePointToUTF8(unicode.value.0);
          current := current + unicode.value.1;
        } else {
          match ShortEscape(escape) {
            case None => return None;
            case Some(d) => decoded := decoded + [d];
          }
        }
      } else {
        decoded := decoded + [c];
      }
    }
    assert s[current..] == "";
    DecodeNothing();
    assert decoded + "" == decoded;
    return Some(decoded);
  }

  lemma PrependNothing(r: Option<string>)
    ensures Prepend("", r) == r
  {
    if r.Some? { assert "" + r.value == r.value; }
  }

  lemma PrependTwice(a: string, b: string, r: Option<string>)
    ensures Prepend(a, Prepend(b, r)) == Prepend(a + b, r)
  {
    if r.Some? { assert a + (b + r.value) == a + b + r.value; }
  }

  lemma DecodeNothing()
    ensures Decode("") == Some("")
  {
  }

  /** One turn of the loop in decodeString. */
  lemma DecodeStep(s: string, i: nat, decoded: string)
    requires i < |s|
    ensures Prepend(decoded, Decode(s[i..])) ==
      if s[i] == '"' then Some(decoded + "")
      else if s[i] != '\\' then Prepend(decoded + [s[i]], Decode(s[i + 1..]))
      else if i + 1 == |s| then None
      else if s[i + 1] == 'u' then
        if CodePoint(s[i + 2..]).Some?
        then Prepend(decoded + CodePointToUTF8(CodePoint(s[i + 2..]).value.0),
                     Decode(s[i + 2 + CodePoint(s[i + 2..]).value.1..]))
        else None
      else if ShortEscape(s[i + 1]).Some? then Prepend(decoded + [ShortEscape(s[i + 1]).value], Decode(s[i + 2..]))
      else None
  {
    hide CodePoint, CodePointToUTF8, ShortEscape;
    var u := s[i..];
    assert u[1..] == s[i + 1..];
    if s[i] != '"' && s[i] != '\\' {
      PrependTwice(decoded, [s[i]], Decode(s[i + 1..]));
    } else if s[i] == '\\' && i + 1 < |s| {
      assert u[2..] == s[i + 2..];
      if s[i + 1] == 'u' {
        var p := CodePoint(s[i + 2..]);
        if p.Some? {
          assert u[2 + p.value.1..] == s[i + 2 + p.value.1..];
          PrependTwice(decoded, CodePointToUTF8(p.value.0), Decode(s[i + 2 + p.value.1..]));
        }
      } else if ShortEscape(s[i + 1]).Some? {
        PrependTwice(decoded, [ShortEscape(s[i + 1]).value], Decode(s[i + 2..]));
      }
    }
  }

  /** decodeUnicodeCodePoint. */
  method DecodeUnicodeCodePoint(s: string) returns (r: Option<(nat, nat)>)
    ensures r == CodePoint(s)
  {
    hide Hex4;
    var unicode := DecodeUnicodeEscapeSequence(s);
    if unicode == None { return None; }
    var u := unicode.value;
    if 0xD800 <= u <= 0xDBFF {
      if |s| - 4 < 6 { return None; }
      if s[4] == '\\' && s[5] == 'u' {
        var pair := DecodeUnicodeEscapeSequence(s[6..]);
        if pair == None { return None; }
        return Some((0x10000 + u % 0x400 * 0x400 + pair.value % 0x400, 10));
      } else {
        return None;
      }
    }
    return Some((u, 4));
  }

  /** decodeUnicodeEscapeSequence: a loop over four digits. */
  method DecodeUnicodeEscapeSequence(s: string) returns (r: Option<nat>)
    ensures r == Hex4(s)
  {
    if |s| < 4 { return None; }
    Hex4Adds(s);
    hide Hex4, AddHex;
    var unicode: nat := 0;
    AddDigit(s, 0);
    for index := 0 to 4
      invariant AddDigits(s, index) == Some(unicode)
    {
      AddDigit(s, index);
      var d := HexValue(s[index]);
      if d == None {
        NoMoreDigits(s, index + 1);
        return None;
      }
      unicode := unicode * 16 + d.value;
    }
    return Some(unicode);
  }

  ghost function AddDigits(s: string, n: nat): Option<nat>
    requires n <= |s|
  {
    if n == 0 then Some(0) else AddHex(AddDigits(s, n - 1), s[n - 1])
  }

  lemma AddDigit(s: string, n: nat)
    requires n < |s|
    ensures AddDigits(s, 0) == Some(0)
    ensures AddDigits(s, n).Some? ==>
      AddDigits(s, n + 1) == match HexValue(s[n]) case None => None case Some(d) => Some(AddDigits(s, n).value * 16 + d)
  {
    hide HexValue;
  }

  lemma Hex4Adds(s: string)
    requires |s| >= 4
    ensures Hex4(s) == AddDigits(s, 4)
  {
    hide AddHex;
    assert AddDigits(s, 1) == AddHex(Some(0), s[0]);
    assert AddDigits(s, 2) == AddHex(AddDigits(s, 1), s[1]);
    assert AddDigits(s, 3) == AddHex(AddDigits(s, 2), s[2]);
  }

  lemma NoMoreDigits(s: string, n: nat)
    requires n <= 4 <= |s| && AddDigits(s, n) == None
    ensures AddDigits(s, 4) == None
    decreases 4 - n
  {
    if n < 4 { NoMoreDigits(s, n + 1); }
  }

  // ---------------------------------------------------------------- documents

  /** Reader::parse. */
  method ParseDocument(document: string) returns (status: Status, value: Json)
    ensures status == Success <==> Parse(document).Some?
    ensures status == Success ==> Parse(document) == Some(value)
    ensures status == NotModelled <==> J.ReadValue(document).Unmodelled?
  {
    hide J.ReadValue;
    var reader := new Reader(document);
    assert document[0..] == document;
    status, value := reader.ReadValue();
  }
}
