/** The Redis protocol: replies, their text, and a recursive-descent reading of that text.
    The reader of redis/read.c is proved against this grammar in `RespReader`. */
module Resp {
  import opened Options
  import opened Integers

  datatype Reply =
    | Status(text: string)
    | Error(text: string)
    | Integer(value: int)
    | Bulk(bytes: string)
    | Nil
    | Array(elements: seq<Reply>)

  /** What the type byte announces. */
  datatype Kind = StatusLine | ErrorLine | IntegerLine | BulkString | MultiBulk

  /** The protocol errors. */
  datatype Flaw =
    | TypeByte(byte: char)
    | BadInteger
    | BadBulkLength | BulkLengthRange
    | TooDeep | BadMultiBulkLength | MultiBulkLengthRange

  /** Reading some text: a value and what is left, not enough text yet, or an error. */
  datatype Outcome<+T> = Done(value: T, rest: string) | Need | Fail(flaw: Flaw)

  const CR: char := '\r'
  const LF: char := '\n'
  const CRLF: string := [CR, LF]

  /** Arrays may stand at levels 0 to 7. */
  const MAX_LEVEL: nat := 8

  // ---------------------------------------------------------------- lines

  predicate NewlineAt(s: string, i: int) { 0 <= i < |s| - 1 && s[i] == CR && s[i + 1] == LF }

  /** The first CR LF. */
  function Newline(s: string): (r: Option<nat>)
    ensures r.Some? ==> NewlineAt(s, r.value)
    ensures forall i :: NewlineAt(s, i) ==> r.Some? && r.value <= i
  {
    if |s| < 2 then None
    else if NewlineAt(s, 0) then Some(0)
    else
      assert forall i :: i > 0 && NewlineAt(s, i) ==> NewlineAt(s[1..], i - 1);
      match Newline(s[1..])
      case None => None
      case Some(i) => Some(i + 1)
  }

  lemma NewlineIs(s: string, i: nat)
    requires NewlineAt(s, i) && forall j :: 0 <= j < i ==> !NewlineAt(s, j)
    ensures Newline(s) == Some(i)
  {
  }

  lemma NewlineMore(s: string, t: string)
    requires Newline(s).Some?
    ensures Newline(s + t) == Newline(s)
  {
    var i := Newline(s).value;
    forall j | 0 <= j < i
      ensures !NewlineAt(s + t, j)
    {
      assert NewlineAt(s + t, j) ==> NewlineAt(s, j);
    }
    NewlineIs(s + t, i);
  }

  /** A line without CR LF inside ends where its own CR LF is, even after a bare CR. */
  lemma NewlineEnds(line: string, rest: string)
    requires Newline(line) == None
    ensures Newline(line + CRLF + rest) == Some(|line|)
  {
    var s := line + CRLF + rest;
    forall j | 0 <= j < |line|
      ensures !NewlineAt(s, j)
    {
      assert NewlineAt(s, j) ==> j + 1 < |line| ==> NewlineAt(line, j);
    }
    NewlineIs(s, |line|);
  }

  // ---------------------------------------------------------------- reading

  function KindOf(byte: char): Option<Kind> {
    if byte == '-' then Some(ErrorLine)
    else if byte == '+' then Some(StatusLine)
    else if byte == ':' then Some(IntegerLine)
    else if byte == '$' then Some(BulkString)
    else if byte == '*' then Some(MultiBulk)
    else None
  }

  function ReadLine(k: Kind, line: string, rest: string): Outcome<Reply> {
    match k
    case StatusLine => Done(Status(line), rest)
    case ErrorLine => Done(Error(line), rest)
    case _ =>
      match ToLongLong(line)
      case None => Fail(BadInteger)
      case Some(v) => Done(Integer(v), rest)
  }

  function ReadBulk(s: string): (r: Outcome<Reply>)
    ensures r.Done? ==> |r.rest| < |s|
  {
    match Newline(s)
    case None => Need
    case Some(i) =>
      match ToLongLong(s[..i])
      case None => Fail(BadBulkLength)
      case Some(n) =>
        var t := s[i + 2..];
        if n < -1 then Fail(BulkLengthRange)
        else if n == -1 then Done(Nil, t)
        else if n + 2 <= |t| then Done(Bulk(t[..n]), t[n + 2..])
        else Need
  }

  /** An item whose type byte has been read. */
  function ReadTyped(k: Kind, s: string, level: nat): (r: Outcome<Reply>)
    requires level <= MAX_LEVEL
    ensures r.Done? ==> |r.rest| < |s|
    decreases |s|, 2
  {
    match k
    case BulkString => ReadBulk(s)
    case MultiBulk =>
      if level == MAX_LEVEL then Fail(TooDeep)
      else
        (match Newline(s)
         case None => Need
         case Some(i) =>
           match ToLongLong(s[..i])
           case None => Fail(BadMultiBulkLength)
           case Some(n) =>
             if n < -1 || n > INT_MAX then Fail(MultiBulkLengthRange)
             else if n == -1 then Done(Nil, s[i + 2..])
             else
               match ReadItems(s[i + 2..], n, level + 1)
               case Done(es, rest) => Done(Array(es), rest)
               case Need => Need
               case Fail(e) => Fail(e))
    case _ =>
      match Newline(s)
      case None => Need
      case Some(i) => ReadLine(k, s[..i], s[i + 2..])
  }

  function ReadItem(s: string, level: nat): (r: Outcome<Reply>)
    requires level <= MAX_LEVEL
    ensures r.Done? ==> |r.rest| < |s|
    decreases |s|, 0
  {
    if s == "" then Need
    else
      match KindOf(s[0])
      case None => Fail(TypeByte(s[0]))
      case Some(k) => ReadTyped(k, s[1..], level)
  }

  function ReadItems(s: string, n: nat, level: nat): (r: Outcome<seq<Reply>>)
    requires level <= MAX_LEVEL
    ensures r.Done? ==> |r.rest| <= |s| && |r.value| == n
    decreases |s|, 1
  {
    if n == 0 then Done([], s)
    else
      match ReadItem(s, level)
      case Need => Need
      case Fail(e) => Fail(e)
      case Done(x, rest) =>
        match ReadItems(rest, n - 1, level)
        case Done(xs, rest') => Done([x] + xs, rest')
        case Need => Need
        case Fail(e) => Fail(e)
  }

  // ---------------------------------------------------------------- more text

  /** The same outcome, with more text behind it; there is no more to say while text is missing. */
  ghost predicate Extends<T>(a: Outcome<T>, t: string, b: Outcome<T>) {
    match a
    case Done(v, rest) => b == Done(v, rest + t)
    case Fail(e) => b == Fail(e)
    case Need => true
  }

  lemma SliceMore(s: string, t: string, i: nat)
    requires i <= |s|
    ensures (s + t)[..i] == s[..i] && (s + t)[i..] == s[i..] + t
  {
  }

  lemma ReadBulkMore(s: string, t: string)
    ensures Extends(ReadBulk(s), t, ReadBulk(s + t))
  {
    hide ToLongLong, Newline;
    if Newline(s).Some? {
      NewlineMore(s, t);
      var i := Newline(s).value;
      SliceMore(s, t, i);
      SliceMore(s, t, i + 2);
      var n := ToLongLong(s[..i]);
      if n.Some? && 0 <= n.value && n.value + 2 <= |s[i + 2..]| {
        SliceMore(s[i + 2..], t, n.value);
        SliceMore(s[i + 2..], t, n.value + 2);
      }
    }
  }

  lemma {:induction false} ReadTypedMore(k: Kind, s: string, t: string, level: nat)
    requires level <= MAX_LEVEL
    ensures Extends(ReadTyped(k, s, level), t, ReadTyped(k, s + t, level))
    decreases |s|, 2
  {
    hide ToLongLong, Newline, ReadBulk;
    if k == BulkString {
      ReadBulkMore(s, t);
    } else if Newline(s).Some? && !(k == MultiBulk && level == MAX_LEVEL) {
      NewlineMore(s, t);
      var i := Newline(s).value;
      SliceMore(s, t, i);
      SliceMore(s, t, i + 2);
      var n := ToLongLong(s[..i]);
      if k == MultiBulk && n.Some? && 0 <= n.value <= INT_MAX {
        ReadItemsMore(s[i + 2..], t, n.value, level + 1);
      }
    }
  }

  lemma {:induction false} ReadItemMore(s: string, t: string, level: nat)
    requires level <= MAX_LEVEL
    ensures Extends(ReadItem(s, level), t, ReadItem(s + t, level))
    decreases |s|, 0
  {
    if s != "" && KindOf(s[0]).Some? {
      ReadTypedMore(KindOf(s[0]).value, s[1..], t, level);
      SliceMore(s, t, 1);
    }
  }

  lemma {:induction false} ReadItemsMore(s: string, t: string, n: nat, level: nat)
    requires level <= MAX_LEVEL
    ensures Extends(ReadItems(s, n, level), t, ReadItems(s + t, n, level))
    decreases |s|, 1
  {
    hide ReadItem;
    if n > 0 {
      ReadItemMore(s, t, level);
      var r := ReadItem(s, level);
      if r.Done? { ReadItemsMore(r.rest, t, n - 1, level); }
    }
  }

  // ---------------------------------------------------------------- writing

  function Line(head: string, text: string): string { head + text + CRLF }

  function Encode(r: Reply): string {
    match r
    case Status(t) => Line("+", t)
    case Error(t) => Line("-", t)
    case Integer(v) => Line(":", Show(v))
    case Bulk(b) => Line("$", Show(|b|)) + b + CRLF
    case Nil => Line("$", Show(-1))
    case Array(es) => Line("*", Show(|es|)) + EncodeAll(es)
  }

  function EncodeAll(es: seq<Reply>): string {
    if es == [] then "" else Encode(es[0]) + EncodeAll(es[1..])
  }

  /** What the protocol can carry at all. */
  predicate Writable(r: Reply) {
    match r
    case Status(t) => Newline(t) == None
    case Error(t) => Newline(t) == None
    case Integer(v) => IsLongLong(v)
    case Bulk(b) => |b| <= LLONG_MAX
    case Nil => true
    case Array(es) => |es| <= INT_MAX && forall e :: e in es ==> Writable(e)
  }

  /** No array stands at level 8, not even an empty one. */
  predicate Shallow(r: Reply, level: nat)
    decreases r
  {
    r.Array? ==> level < MAX_LEVEL && forall e :: e in r.elements ==> Shallow(e, level + 1)
  }
}
