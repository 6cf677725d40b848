/** Header fields in the terms of RFC 7230, without the tables of the parser: which names there are,
    and what the names and values mean that the parser knows, in whatever case they are written. */
module HttpNames {
  import opened Options
  import opened HttpTypes
  import opened HttpSwitch
  import opened HttpHeader
  import opened HttpValue
  import opened HttpMessage
  import opened HttpRequest
  import opened Decimal

  // ---------------------------------------------------------------- names

  /** Section 3.2.6 of RFC 7230. */
  predicate IsTchar(c: char) {
    || '0' <= c <= '9' || 'A' <= c <= 'Z' || 'a' <= c <= 'z'
    || c in {'!', '#', '$', '%', '&', '\'', '*', '+', '-', '.', '^', '_', '`', '|', '~'}
  }

  predicate IsFieldName(s: string) { s != "" && forall i :: 0 <= i < |s| ==> IsTchar(s[i]) }

  /** The word, but that each of its letters may be a capital. */
  predicate SameButCase(s: string, word: string) {
    |s| == |word| && forall i :: 0 <= i < |s| ==> s[i] == word[i] || IsCapitalOf(s[i], word[i])
  }

  predicate IsCapitalOf(c: char, small: char) { 'a' <= small <= 'z' && c as int + 32 == small as int }

  lemma TokensAreTchars(c: char)
    ensures Token(c) != '\0' <==> IsTchar(c)
  {
  }

  lemma NamesAreFieldNames(s: string)
    ensures IsName(s) <==> IsFieldName(s)
  {
    hide Token, IsTchar;
    forall i | 0 <= i < |s| { TokensAreTchars(s[i]); }
  }

  /** Which bytes the table makes a small letter, a digit or a mark of. */
  lemma TokenGives(c: char, small: char)
    requires IsTchar(small) && !('A' <= small <= 'Z')
    ensures Token(c) == small <==> c == small || IsCapitalOf(c, small)
  {
  }

  predicate IsSmall(word: string) { forall i :: 0 <= i < |word| ==> IsTchar(word[i]) && !('A' <= word[i] <= 'Z') }

  lemma LoweredGives(s: string, word: string)
    requires IsSmall(word)
    ensures Lowered(s) == word <==> SameButCase(s, word)
  {
    hide Token, IsTchar, IsCapitalOf;
    if |s| == |word| {
      forall i | 0 <= i < |s|
        ensures Lowered(s)[i] == word[i] <==> s[i] == word[i] || IsCapitalOf(s[i], word[i])
      {
        TokenGives(s[i], word[i]);
      }
    }
  }

  lemma NamesAreSmall()
    ensures IsSmall("connection") && IsSmall("proxy-connection") && IsSmall("content-length")
    ensures IsSmall("transfer-encoding") && IsSmall("upgrade")
  {
  }

  predicate IsConnection(name: string) { SameButCase(name, "connection") || SameButCase(name, "proxy-connection") }

  /** The names that the parser knows, and no others. */
  lemma MeaningIs(name: string)
    ensures Meaning(name) == Connection <==> IsConnection(name)
    ensures Meaning(name) == ContentLength <==> SameButCase(name, "content-length")
    ensures Meaning(name) == TransferEncoding <==> SameButCase(name, "transfer-encoding")
    ensures Meaning(name) == Upgrade <==> SameButCase(name, "upgrade")
    ensures Meaning(name) in {Connection, ContentLength, TransferEncoding, Upgrade, General}
  {
    NamesAreSmall();
    LoweredGives(name, "connection");
    LoweredGives(name, "proxy-connection");
    LoweredGives(name, "content-length");
    LoweredGives(name, "transfer-encoding");
    LoweredGives(name, "upgrade");
    hide Lowered, SameButCase, IsSmall;
  }

  // ---------------------------------------------------------------- values

  /** The word in any case, and spaces behind it. */
  predicate IsWord(v: string, word: string) {
    |v| >= |word| && SameButCase(v[..|word|], word) && forall i :: |word| <= i < |v| ==> v[i] == ' '
  }

  lemma LowerGives(c: char, small: char)
    requires 'a' <= small <= 'z' || small == '-'
    requires c != CR
    ensures Lower(c) == small <==> c == small || IsCapitalOf(c, small)
  {
  }

  predicate IsDashed(word: string) { forall i :: 0 <= i < |word| ==> 'a' <= word[i] <= 'z' || word[i] == '-' }

  lemma SmallGives(s: string, word: string)
    requires IsDashed(word) && CR !in s
    ensures Small(s) == word <==> SameButCase(s, word)
  {
    hide Lower, IsCapitalOf;
    if |s| == |word| {
      forall i | 0 <= i < |s|
        ensures Small(s)[i] == word[i] <==> s[i] == word[i] || IsCapitalOf(s[i], word[i])
      {
        LowerGives(s[i], word[i]);
      }
    }
  }

  lemma SaysIs(v: string, w: Word, word: string)
    requires CR !in v && word == w.Spelling() && IsDashed(word)
    ensures Says(v, w) <==> IsWord(v, word)
  {
    WordLengths(w);
    hide Small, SameButCase, HttpTypes.Word.Spelling, HttpTypes.Word.Length;
    if |v| >= |word| { SmallGives(v[..|word|], word); }
  }

  lemma ValuesSay(v: string)
    requires CR !in v
    ensures Says(v, CHUNKED) <==> IsWord(v, "chunked")
    ensures Says(v, KEEP_ALIVE) <==> IsWord(v, "keep-alive")
    ensures Says(v, CLOSE) <==> IsWord(v, "close")
  {
    hide Says, IsWord;
    SaysIs(v, CHUNKED, "chunked");
    SaysIs(v, KEEP_ALIVE, "keep-alive");
    SaysIs(v, CLOSE, "close");
  }

  // ---------------------------------------------------------------- fields

  /** A header field that is written on a line as name, ": " and value. */
  predicate IsField(name: string, v: string) {
    && IsFieldName(name) && CR !in v && LF !in v && (v != "" ==> v[0] != ' ' && v[0] != '\t')
    && (GivesLength((name, v)) ==>
          (forall i :: 0 <= i < |v| ==> '0' <= v[i] <= '9') && Decimal.Value(v) < 0xFFFF_FFFF_FFFF_FFFF)
  }

  predicate GivesLength(h: (string, string)) { SameButCase(h.0, "content-length") && h.1 != "" }

  predicate SaysChunked(h: (string, string)) { SameButCase(h.0, "transfer-encoding") && IsWord(h.1, "chunked") }

  predicate SaysKeepAlive(h: (string, string)) { IsConnection(h.0) && IsWord(h.1, "keep-alive") }

  predicate SaysClose(h: (string, string)) { IsConnection(h.0) && IsWord(h.1, "close") }

  predicate AsksUpgrade(h: (string, string)) { SameButCase(h.0, "upgrade") && h.1 != "" }

  lemma FieldsAreHeaders(name: string, v: string)
    ensures IsHeader(name, v) <==> IsField(name, v)
  {
    NamesAreFieldNames(name);
    MeaningIs(name);
    hide IsName, IsFieldName, Meaning, SameButCase, Decimal.Value;
    assert AllDigits(v) <==> forall i :: 0 <= i < |v| ==> '0' <= v[i] <= '9';
  }

  /** What one field adds to the flags. */
  lemma FieldFlags(f: Flags, h: (string, string))
    requires CR !in h.1
    ensures FlagsAfter(f, h.0, h.1) ==
      Flags(f.chunked || SaysChunked(h), f.keepAlive || SaysKeepAlive(h), f.close || SaysClose(h), f.trailing,
            f.upgrade || AsksUpgrade(h), f.skipBody)
  {
    hide Meaning, SameButCase, IsConnection, IsWord, Says, MaySay, IsFieldName, HttpTypes.Word.Spelling;
    var (name, v) := h;
    MeaningIs(name);
    ValuesSay(v);
    if v != "" { OneWord(v); }
    SaysIsMaySay(v);
    ShortSaysNothing(v);
  }

  predicate AreFields(hs: seq<(string, string)>) { forall h :: h in hs ==> IsField(h.0, h.1) }

  lemma AllFieldsAreHeaders(hs: seq<(string, string)>)
    ensures AreHeaders(hs) <==> AreFields(hs)
  {
    hide IsHeader, IsField;
    forall h | h in hs { FieldsAreHeaders(h.0, h.1); }
  }

  lemma OnOneLine(h: (string, string))
    requires IsField(h.0, h.1)
    ensures CR !in h.1
  {
  }

  /** All fields together: a flag is set exactly if one of them says so. */
  lemma {:induction false} AllFieldFlags(f: Flags, hs: seq<(string, string)>)
    requires AreFields(hs)
    ensures FlagsAfterAll(f, hs) ==
      Flags(f.chunked || (exists h :: h in hs && SaysChunked(h)), f.keepAlive || (exists h :: h in hs && SaysKeepAlive(h)),
            f.close || (exists h :: h in hs && SaysClose(h)), f.trailing,
            f.upgrade || (exists h :: h in hs && AsksUpgrade(h)), f.skipBody)
    decreases |hs|
  {
    hide FlagsAfter, IsField, SaysChunked, SaysKeepAlive, SaysClose, AsksUpgrade;
    if hs != [] {
      var h, rest := hs[0], hs[1..];
      assert h in hs && IsField(h.0, h.1);
      OnOneLine(h);
      FieldFlags(f, h);
      AllFieldFlags(FlagsAfter(f, h.0, h.1), rest);
      assert forall x :: x in hs <==> x == h || x in rest;
    }
  }

  function Given(h: (string, string)): (n: nat)
    requires IsField(h.0, h.1) && GivesLength(h)
    ensures n < 0xFFFF_FFFF_FFFF_FFFF
  {
    Decimal.Value(h.1)
  }

  /** The last length given counts. */
  function LengthGiven(hs: seq<(string, string)>): (n: Option<nat>)
    requires AreFields(hs)
    ensures n == None <==> forall h :: h in hs ==> !GivesLength(h)
    ensures n.Some? ==> exists i :: 0 <= i < |hs| && GivesLength(hs[i]) && n.value == Given(hs[i])
                                    && forall j :: i < j < |hs| ==> !GivesLength(hs[j])
  {
    if hs == [] then None
    else
      var init, h := hs[..|hs| - 1], hs[|hs| - 1];
      assert h in hs;
      assert forall x :: x in hs <==> x == h || x in init;
      if GivesLength(h) then Some(Given(h)) else LengthGiven(init)
  }

  lemma {:induction false} LengthsAfterAll(n: nat, hs: seq<(string, string)>)
    requires AreFields(hs) && AreHeaders(hs)
    ensures LengthAfterAll(n, hs) == if LengthGiven(hs) == None then n else LengthGiven(hs).value
    decreases |hs|
  {
    hide IsField, IsHeader, LengthAfter, Given, GivesLength, LengthGiven;
    if hs != [] {
      var h, rest := hs[0], hs[1..];
      assert h in hs && forall x :: x in hs <==> x == h || x in rest;
      OneLength(n, h);
      LengthsAfterAll(LengthAfter(n, h.0, h.1), rest);
      assert forall i :: 0 < i < |hs| ==> hs[i] == rest[i - 1];
      assert LengthGiven(rest).Some? ==> LengthGiven(hs) == LengthGiven(rest);
    }
  }

  lemma OneLength(n: nat, h: (string, string))
    requires IsField(h.0, h.1) && IsHeader(h.0, h.1)
    ensures LengthAfter(n, h.0, h.1) == if GivesLength(h) then Given(h) else n
  {
    MeaningIs(h.0);
    hide Meaning, SameButCase, Decimal.Value;
  }
}
