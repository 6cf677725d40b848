/** The method of a request line: which bytes lead from the start of a request to its URL. */
module HttpMethod {
  import opened Options
  import opened HttpTypes
  import opened HttpSwitch
  import opened HttpRun
  import opened HttpGoes

  /** The bytes that are taken for a method: its name, but for M-SEARCH, where the parser
      changes its mind at the dash and then compares with the table's "M - SEARCH". */
  function Taken(m: Method): string {
    if m == MSEARCH then "M-- SEARCH" else m.Name()
  }

  lemma TakenLength(m: Method)
    ensures |Taken(m)| == NameLength(m)
  {
  }

  /** The method the parser believes in after the first letters of a name. */
  function Guess(m: Method, n: nat): Method {
    match m
    case COPY => if n <= 2 then CONNECT else m
    case CHECKOUT => if n <= 1 then CONNECT else m
    case MOVE | MERGE | MSEARCH => if n <= 1 then MKCOL else m
    case MKACTIVITY => if n <= 2 then MKCOL else m
    case SEARCH => if n <= 1 then SUBSCRIBE else m
    case PROPFIND | PUT | PATCH => if n <= 1 then POST else m
    case PROPPATCH => if n <= 1 then POST else if n <= 4 then PROPFIND else m
    case PURGE => if n <= 1 then POST else if n == 2 then PUT else m
    case UNSUBSCRIBE => if n <= 2 then UNLOCK else m
    case _ => m
  }

  lemma NoNul(m: Method, i: nat)
    requires i < NameLength(m)
    ensures CharAt(m.Name(), i) != '\0'
  {
    NameLengths(m);
    hide HttpTypes.Method.Name;
    assert m.Name()[i] != '\0' by { Printable(m); }
  }

  lemma Printable(m: Method)
    ensures forall i :: 0 <= i < |m.Name()| ==> m.Name()[i] != '\0'
  {
  }

  /** Where the guess changes: the letters that make the parser change its mind. */
  lemma CLetters()
    ensures CharAt(CONNECT.Name(), 1) == 'O' && CharAt(CONNECT.Name(), 2) == 'N'
    ensures CharAt(COPY.Name(), 1) == 'O' && CharAt(COPY.Name(), 2) == 'P' && CharAt(CHECKOUT.Name(), 1) == 'H'
  {
  }

  lemma MLetters()
    ensures CharAt(MKCOL.Name(), 1) == 'K' && CharAt(MKCOL.Name(), 2) == 'C'
    ensures CharAt(MOVE.Name(), 1) == 'O' && CharAt(MERGE.Name(), 1) == 'E' && Taken(MSEARCH)[1] == '-'
    ensures CharAt(MKACTIVITY.Name(), 1) == 'K' && CharAt(MKACTIVITY.Name(), 2) == 'A'
    ensures forall i :: 2 <= i < 10 ==> Taken(MSEARCH)[i] == CharAt(MSEARCH.Name(), i)
  {
  }

  lemma PLetters()
    ensures CharAt(POST.Name(), 1) == 'O' && CharAt(PUT.Name(), 2) == 'T'
    ensures CharAt(PROPFIND.Name(), 1) == 'R' && CharAt(PUT.Name(), 1) == 'U' && CharAt(PATCH.Name(), 1) == 'A'
    ensures CharAt(PURGE.Name(), 1) == 'U' && CharAt(PURGE.Name(), 2) == 'R'
  {
  }

  lemma PropLetters()
    ensures CharAt(PROPPATCH.Name(), 1) == 'R' && CharAt(PROPPATCH.Name(), 2) == 'O' && CharAt(PROPPATCH.Name(), 3) == 'P'
    ensures CharAt(PROPPATCH.Name(), 4) == 'P'
    ensures CharAt(PROPFIND.Name(), 2) == 'O' && CharAt(PROPFIND.Name(), 3) == 'P' && CharAt(PROPFIND.Name(), 4) == 'F'
  {
  }

  lemma SULetters()
    ensures CharAt(SUBSCRIBE.Name(), 1) == 'U' && CharAt(SEARCH.Name(), 1) == 'E'
    ensures CharAt(UNLOCK.Name(), 1) == 'N' && CharAt(UNLOCK.Name(), 2) == 'L'
    ensures CharAt(UNSUBSCRIBE.Name(), 1) == 'N' && CharAt(UNSUBSCRIBE.Name(), 2) == 'S'
  {
  }

  /** One letter of a name, in the method byte. */
  lemma MethodLetter(p: Parser, m: Method)
    requires p.verb == Guess(m, p.index) && 1 <= p.index < NameLength(m)
    ensures p.index < |Taken(m)|
    ensures MethodByte(p, Taken(m)[p.index]) == Go(p.(verb := Guess(m, p.index + 1), index := p.index + 1))
  {
    TakenLength(m);
    NameLengths(m);
    hide HttpTypes.Method.Name;
    var i := p.index;
    if m == MSEARCH { MLetters(); }
    if Guess(m, i) == m {
      NoNul(m, i);
    } else {
      CLetters();
      MLetters();
      PLetters();
      SULetters();
      PropLetters();
    }
  }

  // ---------------------------------------------------------------- runs

  function MethodRead(p: Parser, m: Method, n: nat): Parser {
    Fresh(Read(p, n)).(verb := Guess(m, n), index := n, state := ReqMethod)
  }

  lemma FirstLetterOf(m: Method)
    ensures Taken(m)[0] != CR && Taken(m)[0] != LF && IsAlpha(Taken(m)[0])
    ensures FirstLetter(Taken(m)[0]) == Some(Guess(m, 1))
  {
  }

  lemma {:induction false} MethodLettersGo(answersOne: Parser -> bool, p: Parser, m: Method, n: nat)
    requires p.state.StartReq? && 1 <= n <= NameLength(m) && Room(p, n)
    ensures n <= |Taken(m)|
    ensures Goes(answersOne, p, Taken(m)[..n], MethodRead(p, m, n), [Signal(MessageBegin)])
    decreases n
  {
    hide Goes, Switch, Taken, Guess;
    TakenLength(m);
    var t := Taken(m);
    if n == 1 {
      FirstLetterOf(m);
      Dispatch(answersOne, Read(p, 1), t[0]);
      GoesByte(answersOne, p, t[0]);
      assert t[..1] == [t[0]];
      assert Signals(Some(MessageBegin)) + Tail(ReqMethod, t[0]) == [Signal(MessageBegin)];
    } else {
      MethodLettersGo(answersOne, p, m, n - 1);
      var q := MethodRead(p, m, n - 1);
      Dispatch(answersOne, Read(q, 1), t[n - 1]);
      MethodLetter(Read(q, 1), m);
      GoesQuietly(answersOne, q, t[n - 1], MethodRead(p, m, n));
      GoesOn(answersOne, p, t[..n - 1], q, [Signal(MessageBegin)], [t[n - 1]], MethodRead(p, m, n), []);
      assert t[..n] == t[..n - 1] + [t[n - 1]];
      assert [Signal(MessageBegin)] + [] == [Signal(MessageBegin)];
    }
  }

  lemma FinalGuess(m: Method)
    ensures Guess(m, NameLength(m)) == m && 0 < NameLength(m) <= 11
  {
  }

  lemma SpaceEnds(p: Parser, m: Method)
    requires p.verb == m && p.index == NameLength(m)
    ensures MethodByte(p, ' ') == Go(p.(index := NameLength(m) + 1, state := ReqSpacesBeforeUrl))
  {
    NameLengths(m);
    hide HttpTypes.Method.Name;
  }

  /** A method and the space after it. */
  lemma MethodGoes(answersOne: Parser -> bool, p: Parser, m: Method)
    requires p.state.StartReq? && Room(p, NameLength(m) + 1)
    ensures Goes(answersOne, p, Taken(m) + " ",
                 Fresh(Read(p, NameLength(m) + 1)).(verb := m, index := NameLength(m) + 1, state := ReqSpacesBeforeUrl),
                 [Signal(MessageBegin)])
  {
    hide Goes, Switch, Taken, Guess, MethodByte, HttpTypes.Method.Name;
    TakenLength(m);
    var n := NameLength(m);
    MethodLettersGo(answersOne, p, m, n);
    assert Taken(m)[..n] == Taken(m);
    FinalGuess(m);
    var q := MethodRead(p, m, n);
    var r := Fresh(Read(p, n + 1)).(verb := m, index := n + 1, state := ReqSpacesBeforeUrl);
    Dispatch(answersOne, Read(q, 1), ' ');
    SpaceEnds(Read(q, 1), m);
    GoesQuietly(answersOne, q, ' ', r);
    GoesOn(answersOne, p, Taken(m), q, [Signal(MessageBegin)], [' '], r, []);
    assert [' '] == " ";
    assert [Signal(MessageBegin)] + [] == [Signal(MessageBegin)];
  }

  // ---------------------------------------------------------------- exactly these bytes

  function Reading(m: Method, n: nat): Parser { Init(Request).(state := ReqMethod, verb := m, index := n) }

  /** The method believed in, and the letters counted, after the bytes `d` of a request. */
  function Believed(d: string): Option<(Method, nat)> {
    if d == "" then None
    else if |d| == 1 then
      match FirstLetter(d[0]) case None => None case Some(m) => Some((m, 1))
    else
      match Believed(d[..|d| - 1])
      case None => None
      case Some(b) =>
        var o := MethodByte(Reading(b.0, b.1), d[|d| - 1]);
        if o.flow == Advance && o.p.state.ReqMethod? then Some((o.p.verb, o.p.index)) else None
  }

  /** The method, when a space now ends it. */
  function MethodOf(d: string): Option<Method> {
    match Believed(d)
    case None => None
    case Some(b) =>
      if MethodByte(Reading(b.0, b.1), ' ').p.state.ReqSpacesBeforeUrl? then Some(b.0) else None
  }

  lemma FirstLetterIs(ch: char)
    ensures FirstLetter(ch).Some? ==> Taken(FirstLetter(ch).value)[0] == ch
  {
  }

  /** When the parser changes its mind, the two names agree so far. */
  lemma SwitchedAgree(m: Method, n: nat, ch: char)
    requires Switched(m, n, ch).Some? && 1 <= n <= NameLength(m)
    ensures n + 1 <= |Taken(Switched(m, n, ch).value)| && n <= |Taken(m)|
    ensures Taken(Switched(m, n, ch).value)[..n + 1] == Taken(m)[..n] + [ch]
  {
    hide Taken, HttpTypes.Method.Name;
    if m == CONNECT {
      FromConnect(m, n, ch);
    } else if m == MKCOL {
      FromMkcol(m, n, ch);
    } else if m == PROPFIND {
      FromPropfind(m, n, ch);
    } else {
      FromOthers(m, n, ch);
    }
  }

  lemma FromConnect(m: Method, n: nat, ch: char)
    requires m == CONNECT && Switched(m, n, ch).Some?
    ensures n + 1 <= |Taken(Switched(m, n, ch).value)| && n <= |Taken(m)|
    ensures Taken(Switched(m, n, ch).value)[..n + 1] == Taken(m)[..n] + [ch]
  {
  }

  lemma FromMkcol(m: Method, n: nat, ch: char)
    requires m == MKCOL && Switched(m, n, ch).Some?
    ensures n + 1 <= |Taken(Switched(m, n, ch).value)| && n <= |Taken(m)|
    ensures Taken(Switched(m, n, ch).value)[..n + 1] == Taken(m)[..n] + [ch]
  {
  }

  lemma FromPropfind(m: Method, n: nat, ch: char)
    requires m == PROPFIND && Switched(m, n, ch).Some?
    ensures n + 1 <= |Taken(Switched(m, n, ch).value)| && n <= |Taken(m)|
    ensures Taken(Switched(m, n, ch).value)[..n + 1] == Taken(m)[..n] + [ch]
  {
    assert PROPPATCH.Name()[..5] == PROPFIND.Name()[..4] + ['P'];
  }

  lemma FromOthers(m: Method, n: nat, ch: char)
    requires m != CONNECT && m != MKCOL && m != PROPFIND && Switched(m, n, ch).Some?
    ensures n + 1 <= |Taken(Switched(m, n, ch).value)| && n <= |Taken(m)|
    ensures Taken(Switched(m, n, ch).value)[..n + 1] == Taken(m)[..n] + [ch]
  {
  }

  lemma SameBeyondOne(m: Method, i: nat)
    requires 2 <= i < NameLength(m) || (m != MSEARCH && i < NameLength(m))
    ensures i < |Taken(m)| && CharAt(m.Name(), i) == Taken(m)[i]
  {
    TakenLength(m);
    NameLengths(m);
    MLetters();
  }

  lemma {:induction false} BelievedIsTaken(d: string)
    requires Believed(d).Some?
    ensures var (m, n) := Believed(d).value; n == |d| && 1 <= n <= |Taken(m)| && d == Taken(m)[..n]
    ensures var (m, n) := Believed(d).value; m == MSEARCH ==> n >= 2
    decreases |d|
  {
    hide Taken, HttpTypes.Method.Name, FirstLetter, Switched;
    if |d| == 1 {
      FirstLetterIs(d[0]);
      FirstLetterNotMsearch(d[0]);
      TakenLength(FirstLetter(d[0]).value);
    } else {
      var init, ch := d[..|d| - 1], d[|d| - 1];
      assert d == init + [ch];
      BelievedIsTaken(init);
      var (m, n) := Believed(init).value;
      TakenLength(m);
      NameLengths(m);
      if ch == CharAt(m.Name(), n) && ch != '\0' {
        SameBeyondOne(m, n);
      } else {
        SwitchedAgree(m, n, ch);
        assert n >= 1;
      }
    }
  }

  lemma FirstLetterNotMsearch(ch: char)
    ensures FirstLetter(ch) != Some(MSEARCH)
  {
  }

  lemma BelievedFirst(ch: char)
    requires FirstLetter(ch).Some?
    ensures Believed([ch]) == Some((FirstLetter(ch).value, 1))
  {
    hide FirstLetter;
  }

  lemma BelievedNext(d: string, m: Method, n: nat)
    requires |d| >= 2 && Believed(d[..|d| - 1]) == Some((m, n))
    ensures var o := MethodByte(Reading(m, n), d[|d| - 1]);
            o.flow == Advance && o.p.state.ReqMethod? ==> Believed(d) == Some((o.p.verb, o.p.index))
  {
    hide MethodByte;
  }

  lemma {:induction false} TakenIsBelieved(m: Method, n: nat)
    requires 1 <= n <= NameLength(m)
    ensures n <= |Taken(m)| && Believed(Taken(m)[..n]) == Some((Guess(m, n), n))
    decreases n
  {
    hide Taken, HttpTypes.Method.Name, FirstLetter, Guess, MethodByte, Believed;
    TakenLength(m);
    var t := Taken(m);
    var d := t[..n];
    if n == 1 {
      FirstLetterOf(m);
      assert d == [t[0]];
      BelievedFirst(t[0]);
    } else {
      TakenIsBelieved(m, n - 1);
      assert d[..n - 1] == t[..n - 1] && |d| == n;
      MethodLetter(Reading(Guess(m, n - 1), n - 1), m);
      BelievedNext(d, Guess(m, n - 1), n - 1);
    }
  }

  /** Method recognition is exact: these bytes and no others. M-SEARCH itself is refused. */
  lemma MethodExactly(d: string, m: Method)
    ensures MethodOf(d) == Some(m) <==> d == Taken(m)
  {
    hide Taken, HttpTypes.Method.Name, Believed;
    TakenLength(m);
    NameLengths(m);
    if MethodOf(d) == Some(m) {
      BelievedIsTaken(d);
      var (_, n) := Believed(d).value;
      if n < NameLength(m) { NoNul(m, n); SpaceSwitches(m, n); SpaceInName(m, n); }
      assert Taken(m)[..|Taken(m)|] == Taken(m);
    }
    if d == Taken(m) {
      TakenIsBelieved(m, NameLength(m));
      assert d[..|d|] == d && Guess(m, NameLength(m)) == m;
    }
  }

  lemma SpaceSwitches(m: Method, n: nat)
    ensures Switched(m, n, ' ') == None
  {
  }

  lemma SpaceInName(m: Method, n: nat)
    requires n < NameLength(m)
    ensures MethodByte(Reading(m, n), ' ').p.state != ReqSpacesBeforeUrl
  {
    NoNul(m, n);
    hide HttpTypes.Method.Name, Switched;
  }

  lemma Recognised(m: Method)
    ensures MethodOf(Taken(m)) == Some(m)
  {
    MethodExactly(Taken(m), m);
  }

  /** The methods of section 4 of RFC 7231 and of RFC 5789 are recognised from their names. */
  lemma HttpMethods()
    ensures MethodOf("GET") == Some(GET) && MethodOf("HEAD") == Some(HEAD) && MethodOf("POST") == Some(POST)
    ensures MethodOf("PUT") == Some(PUT) && MethodOf("DELETE") == Some(DELETE) && MethodOf("CONNECT") == Some(CONNECT)
    ensures MethodOf("OPTIONS") == Some(OPTIONS) && MethodOf("TRACE") == Some(TRACE) && MethodOf("PATCH") == Some(PATCH)
  {
    hide MethodOf;
    forall m: Method { Recognised(m); }
  }

  /** So are those of RFC 4918. */
  lemma WebdavMethods()
    ensures MethodOf("COPY") == Some(COPY) && MethodOf("LOCK") == Some(LOCK) && MethodOf("MKCOL") == Some(MKCOL)
    ensures MethodOf("MOVE") == Some(MOVE) && MethodOf("UNLOCK") == Some(UNLOCK)
    ensures MethodOf("PROPFIND") == Some(PROPFIND) && MethodOf("PROPPATCH") == Some(PROPPATCH)
  {
    hide MethodOf;
    forall m: Method { Recognised(m); }
  }

  /** And the other ones of the table, but for M-SEARCH. */
  lemma OtherMethods()
    ensures MethodOf("SEARCH") == Some(SEARCH) && MethodOf("REPORT") == Some(REPORT)
    ensures MethodOf("MKACTIVITY") == Some(MKACTIVITY) && MethodOf("CHECKOUT") == Some(CHECKOUT)
    ensures MethodOf("MERGE") == Some(MERGE) && MethodOf("NOTIFY") == Some(NOTIFY) && MethodOf("PURGE") == Some(PURGE)
    ensures MethodOf("SUBSCRIBE") == Some(SUBSCRIBE) && MethodOf("UNSUBSCRIBE") == Some(UNSUBSCRIBE)
  {
    hide MethodOf;
    forall m: Method { Recognised(m); }
  }

  lemma EightLetters()
    ensures Taken(PROPFIND)[0] == 'P' && Taken(CHECKOUT)[0] == 'C'
  {
  }

  lemma SearchIsRefused()
    ensures forall m :: MethodOf("M-SEARCH") != Some(m)
  {
    hide Taken, MethodOf;
    EightLetters();
    forall m
      ensures MethodOf("M-SEARCH") != Some(m)
    {
      MethodExactly("M-SEARCH", m);
      TakenLength(m);
    }
  }
}
