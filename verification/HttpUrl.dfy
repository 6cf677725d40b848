/** The URL automaton of base/http_parser.cc (`parse_url_char`) and the URLs it reads: their parts,
    and the text that the parts make up. */
module HttpUrl {
  import opened Options
  import opened HttpTypes
  import opened HttpSwitch

  /** `slashes` counts the characters read of "://", `hashes` those of the '#'s before a fragment. */
  datatype UrlParts = UrlParts(schema: string, slashes: nat, authority: string, path: string, mark: bool,
                               query: string, hashes: nat, fragment: string)

  const NO_PARTS: UrlParts := UrlParts("", 0, "", "", false, "", 0, "")

  function Hashes(n: nat): (s: string)
    ensures |s| == n
  {
    if n == 0 then "" else Hashes(n - 1) + "#"
  }

  function Colons(n: nat): (s: string)
    requires n <= 3
    ensures |s| == n
  {
    "://"[..n]
  }

  function Front(p: UrlParts): string
    requires p.slashes <= 3
  {
    p.schema + Colons(p.slashes) + p.authority
  }

  function Tail(p: UrlParts): string { p.path + (if p.mark then "?" else "") + p.query + Hashes(p.hashes) + p.fragment }

  /** The text of a URL. */
  function Render(p: UrlParts): string
    requires p.slashes <= 3
  {
    Front(p) + Tail(p)
  }

  // ---------------------------------------------------------------- which parts make a URL

  predicate IsAuthorityChar(c: char) { IsUserinfoChar(c) || c == '[' || c == ']' || c == '@' }

  predicate IsQueryChar(c: char) { IsUrlChar(c) || c == '?' }

  predicate AllAlpha(s: string) { forall i :: 0 <= i < |s| ==> IsAlpha(s[i]) }

  predicate IsAuthority(s: string) {
    && (forall i :: 0 <= i < |s| ==> IsAuthorityChar(s[i]))
    && (forall i :: 0 < i < |s| ==> s[i] == '@' ==> s[i - 1] != '@')
  }

  predicate IsPath(s: string) {
    && (forall i :: 0 <= i < |s| ==> IsUrlChar(s[i]))
    && (s != "" ==> s[0] == '/' || s[0] == '*')
  }

  predicate IsQuery(s: string) { forall i :: 0 <= i < |s| ==> IsQueryChar(s[i]) }

  predicate IsFragment(s: string) {
    && (forall i :: 0 <= i < |s| ==> IsQueryChar(s[i]) || s[i] == '#')
    && (s != "" ==> s[0] != '#')
  }

  /** The part of the URL where a host may stand has been reached. */
  predicate AtServer(connect: bool, p: UrlParts) { connect || p.slashes == 3 }

  predicate WellFormed(connect: bool, p: UrlParts) {
    && AllAlpha(p.schema) && p.slashes <= 3 && (p.slashes > 0 ==> p.schema != "")
    && (connect ==> p.schema == "")
    && IsAuthority(p.authority) && (p.authority != "" ==> AtServer(connect, p))
    && TailFits(connect, p)
  }

  predicate TailFits(connect: bool, p: UrlParts) {
    && IsPath(p.path) && (p.path != "" ==> if AtServer(connect, p) then p.path[0] == '/' else p.schema == "")
    && (p.mark ==> p.path != "" || AtServer(connect, p))
    && IsQuery(p.query) && (p.query != "" ==> p.mark)
    && (p.hashes > 0 ==> p.path != "" || p.mark)
    && IsFragment(p.fragment) && (p.fragment != "" ==> p.hashes > 0)
  }

  // ---------------------------------------------------------------- the automaton

  function StartState(connect: bool): State { if connect then ReqServerStart else ReqSpacesBeforeUrl }

  /** Where the automaton is when it has read these parts. */
  function StateOf(connect: bool, p: UrlParts): State {
    if p.fragment != "" then ReqFragment
    else if p.hashes > 0 then ReqFragmentStart
    else if p.query != "" then ReqQueryString
    else if p.mark then ReqQueryStringStart
    else if p.path != "" then ReqPath
    else if p.authority != "" then
      if p.authority[|p.authority| - 1] == '@' then ReqServerWithAt else ReqServer
    else FrontState(connect, p)
  }

  function FrontState(connect: bool, p: UrlParts): State {
    if AtServer(connect, p) then ReqServerStart
    else if p.slashes == 2 then ReqSchemaSlashSlash
    else if p.slashes == 1 then ReqSchemaSlash
    else if p.schema != "" then ReqSchema
    else ReqSpacesBeforeUrl
  }

  /** One more character, which has led to state `s`. */
  function Grow(p: UrlParts, s: State, ch: char): UrlParts {
    if s.ReqSchema? then p.(schema := p.schema + [ch])
    else if s.ReqSchemaSlash? || s.ReqSchemaSlashSlash? || s.ReqServerStart? then p.(slashes := p.slashes + 1)
    else if s.ReqServer? || s.ReqServerWithAt? then p.(authority := p.authority + [ch])
    else if s.ReqPath? then p.(path := p.path + [ch])
    else if s.ReqQueryStringStart? then p.(mark := true)
    else if s.ReqQueryString? then p.(query := p.query + [ch])
    else if s.ReqFragmentStart? then p.(hashes := p.hashes + 1)
    else p.(fragment := p.fragment + [ch])
  }

  /** The parts of a text, if the automaton reads it to the end. */
  function ReadUrl(connect: bool, t: string): Option<UrlParts> {
    if t == "" then Some(NO_PARTS)
    else
      var p := ReadUrl(connect, t[..|t| - 1]);
      if p == None then None else ReadOne(connect, p.value, t[|t| - 1])
  }

  function ReadOne(connect: bool, p: UrlParts, ch: char): Option<UrlParts> {
    var s := ParseUrlChar(StateOf(connect, p), ch);
    if s.Dead? then None else Some(Grow(p, s, ch))
  }

  // ---------------------------------------------------------------- reading adds to the text

  /** The ways into each state. */
  predicate Comes(s: State, ch: char, next: State) {
    if next.ReqSchema? then (s.ReqSpacesBeforeUrl? || s.ReqSchema?) && IsAlpha(ch)
    else if next.ReqSchemaSlash? then s.ReqSchema? && ch == ':'
    else if next.ReqSchemaSlashSlash? then s.ReqSchemaSlash? && ch == '/'
    else if next.ReqServerStart? then s.ReqSchemaSlashSlash? && ch == '/'
    else if next.ReqServer? then Serving(s) && IsAuthorityChar(ch) && ch != '@'
    else if next.ReqServerWithAt? then (s.ReqServerStart? || s.ReqServer?) && ch == '@'
    else if next.ReqPath? then
      || (s.ReqSpacesBeforeUrl? && (ch == '/' || ch == '*'))
      || (Serving(s) && ch == '/')
      || (s.ReqPath? && IsUrlChar(ch))
    else if next.ReqQueryStringStart? then (Serving(s) || s.ReqPath?) && ch == '?'
    else ComesLate(s, ch, next)
  }

  predicate ComesLate(s: State, ch: char, next: State) {
    if next.ReqQueryString? then (s.ReqQueryStringStart? || s.ReqQueryString?) && IsQueryChar(ch)
    else if next.ReqFragmentStart? then
      (s.ReqPath? || s.ReqQueryStringStart? || s.ReqQueryString? || s.ReqFragmentStart?) && ch == '#'
    else
      && next.ReqFragment? && (s.ReqFragmentStart? || s.ReqFragment?)
      && (IsQueryChar(ch) || (ch == '#' && s.ReqFragment?)) && (s.ReqFragmentStart? ==> ch != '#')
  }

  predicate Serving(s: State) { s.ReqServerStart? || s.ReqServer? || s.ReqServerWithAt? }

  predicate UrlState(s: State) {
    || s.ReqSpacesBeforeUrl? || s.ReqSchema? || s.ReqSchemaSlash? || s.ReqSchemaSlashSlash? || Serving(s)
    || s.ReqPath? || s.ReqQueryStringStart? || s.ReqQueryString? || s.ReqFragmentStart? || s.ReqFragment?
  }

  lemma EarlyWaysIn(s: State, ch: char)
    requires s.ReqSpacesBeforeUrl? || s.ReqSchema? || s.ReqSchemaSlash? || s.ReqSchemaSlashSlash?
    ensures !ParseUrlChar(s, ch).Dead? ==> Comes(s, ch, ParseUrlChar(s, ch))
  {
    hide IsUserinfoChar, IsUrlChar;
  }

  lemma ServerWaysIn(s: State, ch: char)
    requires Serving(s)
    ensures !ParseUrlChar(s, ch).Dead? ==> Comes(s, ch, ParseUrlChar(s, ch))
  {
    hide IsUrlChar, IsAlphaNum;
  }

  lemma LateWaysIn(s: State, ch: char)
    requires UrlState(s) && !Serving(s)
    requires !s.ReqSpacesBeforeUrl? && !s.ReqSchema? && !s.ReqSchemaSlash? && !s.ReqSchemaSlashSlash?
    ensures !ParseUrlChar(s, ch).Dead? ==> Comes(s, ch, ParseUrlChar(s, ch))
  {
    hide IsUserinfoChar, IsAlpha;
  }

  lemma WaysIn(s: State, ch: char)
    requires UrlState(s)
    ensures !ParseUrlChar(s, ch).Dead? ==> Comes(s, ch, ParseUrlChar(s, ch))
  {
    hide ParseUrlChar, Comes;
    if Serving(s) {
      ServerWaysIn(s, ch);
    } else if s.ReqSpacesBeforeUrl? || s.ReqSchema? || s.ReqSchemaSlash? || s.ReqSchemaSlashSlash? {
      EarlyWaysIn(s, ch);
    } else {
      LateWaysIn(s, ch);
    }
  }

  lemma GrowLate(connect: bool, p: UrlParts, s: State, ch: char)
    requires WellFormed(connect, p) && Comes(StateOf(connect, p), ch, s)
    requires s.ReqFragment? || s.ReqFragmentStart? || s.ReqQueryString? || s.ReqQueryStringStart?
    ensures WellFormed(connect, Grow(p, s, ch)) && StateOf(connect, Grow(p, s, ch)) == s
  {
    hide IsAuthority, IsAuthorityChar, IsQueryChar, IsUrlChar, IsPath, AllAlpha;
  }

  lemma GrowEarly(connect: bool, p: UrlParts, s: State, ch: char)
    requires WellFormed(connect, p) && Comes(StateOf(connect, p), ch, s)
    requires s.ReqSchema? || s.ReqSchemaSlash? || s.ReqSchemaSlashSlash? || s.ReqServerStart?
    ensures WellFormed(connect, Grow(p, s, ch)) && StateOf(connect, Grow(p, s, ch)) == s
  {
    hide IsAuthority, IsAuthorityChar, IsQueryChar, IsUrlChar, IsPath, IsQuery, IsFragment;
  }

  lemma GrowServer(connect: bool, p: UrlParts, s: State, ch: char)
    requires WellFormed(connect, p) && Comes(StateOf(connect, p), ch, s)
    requires s.ReqServer? || s.ReqServerWithAt?
    ensures WellFormed(connect, Grow(p, s, ch)) && StateOf(connect, Grow(p, s, ch)) == s
  {
    hide IsUserinfoChar, IsQueryChar, IsUrlChar, IsPath, IsQuery, IsFragment, AllAlpha;
  }

  lemma GrowPath(connect: bool, p: UrlParts, s: State, ch: char)
    requires WellFormed(connect, p) && Comes(StateOf(connect, p), ch, s)
    requires s.ReqPath?
    ensures WellFormed(connect, Grow(p, s, ch)) && StateOf(connect, Grow(p, s, ch)) == s
  {
    hide IsAuthorityChar, IsQueryChar, IsAuthority, IsQuery, IsFragment, AllAlpha;
  }

  lemma GrowKeeps(connect: bool, p: UrlParts, ch: char)
    requires WellFormed(connect, p)
    ensures var s := ParseUrlChar(StateOf(connect, p), ch);
      !s.Dead? ==> WellFormed(connect, Grow(p, s, ch)) && StateOf(connect, Grow(p, s, ch)) == s
  {
    var s := ParseUrlChar(StateOf(connect, p), ch);
    WaysIn(StateOf(connect, p), ch);
    hide ParseUrlChar, StateOf, Grow, WellFormed;
    if !s.Dead? {
      if s.ReqSchema? || s.ReqSchemaSlash? || s.ReqSchemaSlashSlash? || s.ReqServerStart? {
        GrowEarly(connect, p, s, ch);
      } else if s.ReqServer? || s.ReqServerWithAt? {
        GrowServer(connect, p, s, ch);
      } else if s.ReqPath? {
        GrowPath(connect, p, s, ch);
      } else {
        GrowLate(connect, p, s, ch);
      }
    }
  }

  lemma Appended(a: string, b: string, ch: char)
    ensures a + (b + [ch]) == a + b + [ch]
    ensures a + [ch] + "" == a + "" + [ch]
  {}

  lemma FrontEnds(connect: bool, p: UrlParts, s: State, ch: char)
    requires WellFormed(connect, p) && Comes(StateOf(connect, p), ch, s)
    requires s.ReqSchema? || s.ReqSchemaSlash? || s.ReqSchemaSlashSlash? || s.ReqServerStart? || s.ReqServer?
      || s.ReqServerWithAt?
    ensures p.slashes <= 3 && p.path == "" && !p.mark && p.query == "" && p.hashes == 0 && p.fragment == ""
    ensures !s.ReqServer? && !s.ReqServerWithAt? ==> p.authority == ""
    ensures s.ReqSchema? ==> p.slashes == 0
    ensures s.ReqSchemaSlash? || s.ReqSchemaSlashSlash? || s.ReqServerStart? ==>
      p.slashes < 3 && ch == if p.slashes == 0 then ':' else '/'
  {
    hide AllAlpha, IsAuthority, IsPath, IsQuery, IsFragment, IsAuthorityChar, IsAlpha, IsUrlChar, IsQueryChar;
  }

  lemma ColonsGrow(n: nat)
    requires n < 3
    ensures Colons(n + 1) == Colons(n) + [if n == 0 then ':' else '/']
    ensures Colons(0) == ""
  {}

  lemma FrontGrows(connect: bool, p: UrlParts, s: State, ch: char)
    requires WellFormed(connect, p) && Comes(StateOf(connect, p), ch, s)
    requires s.ReqSchema? || s.ReqSchemaSlash? || s.ReqSchemaSlashSlash? || s.ReqServerStart? || s.ReqServer?
      || s.ReqServerWithAt?
    ensures var q := Grow(p, s, ch);
      q.slashes <= 3 && Front(q) == Front(p) + [ch] && Tail(p) == "" && Tail(q) == ""
  {
    FrontEnds(connect, p, s, ch);
    if p.slashes < 3 { ColonsGrow(p.slashes); }
    hide WellFormed, Comes, StateOf, Colons;
  }

  lemma TailEnds(p: UrlParts)
    ensures p.fragment == "" ==> Tail(p) == p.path + (if p.mark then "?" else "") + p.query + Hashes(p.hashes)
    ensures p.fragment == "" && p.hashes == 0 ==> Tail(p) == p.path + (if p.mark then "?" else "") + p.query
    ensures p.fragment == "" && p.hashes == 0 && p.query == "" ==> Tail(p) == p.path + (if p.mark then "?" else "")
    ensures p.fragment == "" && p.hashes == 0 && p.query == "" && !p.mark ==> Tail(p) == p.path
  {}

  lemma EndOf(connect: bool, p: UrlParts, s: State, ch: char)
    requires WellFormed(connect, p) && Comes(StateOf(connect, p), ch, s)
    requires s.ReqPath? || s.ReqQueryStringStart? || s.ReqQueryString? || s.ReqFragmentStart? || s.ReqFragment?
    ensures !s.ReqFragment? ==> p.fragment == ""
    ensures s.ReqFragmentStart? || s.ReqQueryStringStart? ==> ch == if s.ReqFragmentStart? then '#' else '?'
    ensures s.ReqPath? || s.ReqQueryStringStart? || s.ReqQueryString? ==> p.hashes == 0
    ensures s.ReqPath? || s.ReqQueryStringStart? ==> p.query == "" && !p.mark
  {
    hide AllAlpha, IsAuthority, IsPath, IsQuery, IsFragment, IsAuthorityChar, IsAlpha, IsUrlChar, IsQueryChar;
  }

  lemma TailGrows(connect: bool, p: UrlParts, s: State, ch: char)
    requires WellFormed(connect, p) && Comes(StateOf(connect, p), ch, s)
    requires s.ReqPath? || s.ReqQueryStringStart? || s.ReqQueryString? || s.ReqFragmentStart? || s.ReqFragment?
    ensures var q := Grow(p, s, ch);
      q.slashes <= 3 && Front(q) == Front(p) && Tail(q) == Tail(p) + [ch]
  {
    EndOf(connect, p, s, ch);
    assert p.slashes <= 3;
    hide WellFormed, StateOf, Comes;
    var q := Grow(p, s, ch);
    TailEnds(p);
    TailEnds(q);
    if !s.ReqFragment? { hide Tail; }
  }

  lemma GrowRenders(connect: bool, p: UrlParts, ch: char)
    requires WellFormed(connect, p)
    ensures var s := ParseUrlChar(StateOf(connect, p), ch);
      !s.Dead? ==> Grow(p, s, ch).slashes <= 3 && Render(Grow(p, s, ch)) == Render(p) + [ch]
  {
    var s := ParseUrlChar(StateOf(connect, p), ch);
    WaysIn(StateOf(connect, p), ch);
    assert p.slashes <= 3;
    hide ParseUrlChar, StateOf, Grow, Front, Tail, WellFormed;
    if s.Dead? {
    } else if s.ReqPath? || s.ReqQueryStringStart? || s.ReqQueryString? || s.ReqFragmentStart? || s.ReqFragment? {
      TailGrows(connect, p, s, ch);
      Appended(Front(p), Tail(p), ch);
    } else {
      FrontGrows(connect, p, s, ch);
      Appended(Front(p), "", ch);
    }
  }

  /** What is read are parts that make a URL, and the text is theirs. */
  lemma {:induction false} ReadSound(connect: bool, t: string)
    ensures var p := ReadUrl(connect, t);
      p.Some? ==> WellFormed(connect, p.value) && Render(p.value) == t
    decreases |t|
  {
    hide WellFormed, Render, ReadOne;
    if t == "" {
      NoPartsFit(connect);
    } else {
      var init, ch := t[..|t| - 1], t[|t| - 1];
      ReadSound(connect, init);
      var p := ReadUrl(connect, init);
      if p.Some? { OneSound(connect, p.value, ch); }
      assert t == init + [ch];
    }
  }

  lemma NoPartsFit(connect: bool)
    ensures WellFormed(connect, NO_PARTS) && Render(NO_PARTS) == ""
  {}

  lemma OneSound(connect: bool, p: UrlParts, ch: char)
    requires WellFormed(connect, p)
    ensures var q := ReadOne(connect, p, ch);
      q.Some? ==> WellFormed(connect, q.value) && Render(q.value) == Render(p) + [ch]
  {
    hide WellFormed, Render, ParseUrlChar, StateOf, Grow;
    GrowKeeps(connect, p, ch);
    GrowRenders(connect, p, ch);
  }

  // ---------------------------------------------------------------- every URL is read

  function Butlast(s: string): string
    requires s != ""
  {
    s[..|s| - 1]
  }

  /** Without the last character. */
  function Shrink(p: UrlParts): UrlParts {
    if p.fragment != "" then p.(fragment := Butlast(p.fragment))
    else if p.hashes > 0 then p.(hashes := p.hashes - 1)
    else if p.query != "" then p.(query := Butlast(p.query))
    else if p.mark then p.(mark := false)
    else if p.path != "" then p.(path := Butlast(p.path))
    else if p.authority != "" then p.(authority := Butlast(p.authority))
    else if p.slashes > 0 then p.(slashes := p.slashes - 1)
    else if p.schema != "" then p.(schema := Butlast(p.schema))
    else p
  }

  function Last(p: UrlParts): char {
    if p.fragment != "" then p.fragment[|p.fragment| - 1]
    else if p.hashes > 0 then '#'
    else if p.query != "" then p.query[|p.query| - 1]
    else if p.mark then '?'
    else if p.path != "" then p.path[|p.path| - 1]
    else if p.authority != "" then p.authority[|p.authority| - 1]
    else if 0 < p.slashes <= 3 then "://"[p.slashes - 1]
    else if p.schema != "" then p.schema[|p.schema| - 1]
    else '/'
  }

  lemma ShrunkLate(connect: bool, p: UrlParts)
    requires WellFormed(connect, p) && (p.fragment != "" || p.hashes > 0 || p.query != "" || p.mark)
    ensures WellFormed(connect, Shrink(p)) && Comes(StateOf(connect, Shrink(p)), Last(p), StateOf(connect, p))
  {
    hide AllAlpha, IsAuthority, IsPath, IsAuthorityChar, IsAlpha, IsUrlChar, IsQueryChar;
  }

  lemma ShrunkPath(connect: bool, p: UrlParts)
    requires WellFormed(connect, p) && StateOf(connect, p).ReqPath?
    ensures WellFormed(connect, Shrink(p)) && Comes(StateOf(connect, Shrink(p)), Last(p), StateOf(connect, p))
  {
    hide AllAlpha, IsAuthority, IsQuery, IsFragment, IsAuthorityChar, IsAlpha, IsUrlChar, IsQueryChar;
  }

  lemma ShrunkServer(connect: bool, p: UrlParts)
    requires WellFormed(connect, p) && (StateOf(connect, p).ReqServer? || StateOf(connect, p).ReqServerWithAt?)
    ensures WellFormed(connect, Shrink(p)) && Comes(StateOf(connect, Shrink(p)), Last(p), StateOf(connect, p))
  {
    hide AllAlpha, IsPath, IsQuery, IsFragment, IsUserinfoChar, IsAlpha, IsUrlChar, IsQueryChar;
  }

  lemma ShrunkEarly(connect: bool, p: UrlParts)
    requires WellFormed(connect, p) && p != NO_PARTS
    requires p.authority == "" && p.path == "" && p.query == "" && p.fragment == "" && !p.mark && p.hashes == 0
    ensures WellFormed(connect, Shrink(p)) && Comes(StateOf(connect, Shrink(p)), Last(p), StateOf(connect, p))
  {
    hide IsAuthority, IsPath, IsQuery, IsFragment, IsUserinfoChar, IsAlpha, IsUrlChar, IsQueryChar;
  }

  lemma Rejoin(s: string)
    requires s != ""
    ensures Butlast(s) + [s[|s| - 1]] == s
  {}

  lemma GrownBackLate(connect: bool, p: UrlParts)
    requires p.fragment != "" || p.hashes > 0 || p.query != "" || p.mark || p.path != ""
    ensures Grow(Shrink(p), StateOf(connect, p), Last(p)) == p
  {
    if p.fragment != "" {
      Rejoin(p.fragment);
    } else if p.hashes == 0 && p.query != "" {
      Rejoin(p.query);
    } else if p.hashes == 0 && !p.mark {
      Rejoin(p.path);
    }
    hide Butlast;
  }

  lemma GrownBack(connect: bool, p: UrlParts)
    requires WellFormed(connect, p) && p != NO_PARTS
    ensures Grow(Shrink(p), StateOf(connect, p), Last(p)) == p
  {
    hide IsAuthority, IsPath, IsQuery, IsFragment, AllAlpha;
    if p.fragment != "" || p.hashes > 0 || p.query != "" || p.mark || p.path != "" {
      hide Grow, Shrink, StateOf;
      GrownBackLate(connect, p);
    } else if p.authority != "" {
      Rejoin(p.authority);
      hide Butlast, WellFormed;
    } else if p.slashes == 0 {
      Rejoin(p.schema);
      hide Butlast;
    }
  }

  lemma EarlyIn(s: State, ch: char, next: State)
    requires UrlState(next) && !next.ReqSpacesBeforeUrl?
    requires s.ReqSpacesBeforeUrl? || s.ReqSchema? || s.ReqSchemaSlash? || s.ReqSchemaSlashSlash?
    requires Comes(s, ch, next)
    ensures ParseUrlChar(s, ch) == next
  {
    hide IsUserinfoChar, IsUrlChar;
  }

  lemma NoDelimiter(ch: char)
    requires IsAuthorityChar(ch)
    ensures ch != '/' && ch != '?' && ch != ' ' && ch != CR && ch != LF && ch != '\t' && ch as int != 12
  {}

  lemma ServerIn(s: State, ch: char, next: State)
    requires UrlState(next) && !next.ReqSpacesBeforeUrl?
    requires Serving(s) && Comes(s, ch, next)
    ensures ParseUrlChar(s, ch) == next
  {
    if next.ReqServer? { NoDelimiter(ch); }
    hide IsUrlChar, IsUserinfoChar;
  }

  lemma LateIn(s: State, ch: char, next: State)
    requires UrlState(next) && !next.ReqSpacesBeforeUrl?
    requires s.ReqPath? || s.ReqQueryStringStart? || s.ReqQueryString? || s.ReqFragmentStart? || s.ReqFragment?
    requires Comes(s, ch, next)
    ensures ParseUrlChar(s, ch) == next
  {
    hide IsUserinfoChar, IsAlpha;
  }

  lemma StatesOf(connect: bool, p: UrlParts)
    requires p.slashes <= 3
    ensures UrlState(StateOf(connect, p))
    ensures StateOf(connect, p).ReqSpacesBeforeUrl? ==> p == NO_PARTS
  {}

  lemma Shrunk(connect: bool, p: UrlParts)
    requires WellFormed(connect, p) && p != NO_PARTS
    ensures WellFormed(connect, Shrink(p)) && ReadOne(connect, Shrink(p), Last(p)) == Some(p)
  {
    GrownBack(connect, p);
    assert p.slashes <= 3 && Shrink(p).slashes <= 3;
    StatesOf(connect, p);
    StatesOf(connect, Shrink(p));
    var s, ch, next := StateOf(connect, Shrink(p)), Last(p), StateOf(connect, p);
    if p.fragment != "" || p.hashes > 0 || p.query != "" || p.mark {
      ShrunkLate(connect, p);
    } else if p.path != "" {
      ShrunkPath(connect, p);
    } else if p.authority != "" {
      ShrunkServer(connect, p);
    } else {
      ShrunkEarly(connect, p);
    }
    hide WellFormed, StateOf, Comes, Grow, ParseUrlChar;
    if Serving(s) {
      ServerIn(s, ch, next);
    } else if s.ReqSpacesBeforeUrl? || s.ReqSchema? || s.ReqSchemaSlash? || s.ReqSchemaSlashSlash? {
      EarlyIn(s, ch, next);
    } else {
      LateIn(s, ch, next);
    }
  }

  lemma {:induction false} ReadBack(connect: bool, p: UrlParts)
    requires WellFormed(connect, p)
    ensures ReadUrl(connect, Render(p)) == Some(p)
    decreases |Render(p)|
  {
    if p != NO_PARTS {
      Shrunk(connect, p);
      OneSound(connect, Shrink(p), Last(p));
      hide WellFormed, Render, ReadOne;
      ReadBack(connect, Shrink(p));
      assert Render(p)[..|Render(p)| - 1] == Render(Shrink(p));
    }
  }

  /** The automaton takes a URL apart into the parts that make it up, and there is one way to do so. */
  lemma ReadExactly(connect: bool, t: string, p: UrlParts)
    ensures ReadUrl(connect, t) == Some(p) <==> WellFormed(connect, p) && Render(p) == t
  {
    ReadSound(connect, t);
    if WellFormed(connect, p) { ReadBack(connect, p); }
  }
}
