/** Request targets, and the characters of URLs, without the tables of the parser. */
module HttpTargets {
  import opened Options
  import opened HttpTypes
  import opened HttpSwitch
  import opened HttpUrl
  import HttpHost
  import opened HttpRequest

  predicate IsLetter(c: char) { 'A' <= c <= 'Z' || 'a' <= c <= 'z' }

  /** Section 3.2.2 of RFC 2396: unreserved characters, escapes, and some of the reserved ones. */
  predicate InUserinfo(c: char) {
    || IsLetter(c) || '0' <= c <= '9'
    || c in {'-', '_', '.', '!', '~', '*', '\'', '(', ')', '%', ';', ':', '&', '=', '+', '$', ','}
  }

  /** The character classes of the URL automata, spelled out. */
  lemma UrlCharacters(c: char)
    ensures IsAlpha(c) <==> IsLetter(c)
    ensures IsUserinfoChar(c) <==> InUserinfo(c)
    ensures IsUrlChar(c) <==> 0x21 <= c as int <= 0x7E && c != '#' && c != '?'
    ensures HttpHost.IsHostChar(c) <==> IsLetter(c) || '0' <= c <= '9' || c == '-' || c == '.'
    ensures HttpHost.IsV6Char(c) <==> '0' <= c <= '9' || 'A' <= c <= 'F' || 'a' <= c <= 'f' || c == ':' || c == '.'
  {
  }

  /** A request target is the text of parts that fit and go beyond a scheme and its "://". */
  lemma TargetExactly(m: Method, t: string)
    ensures IsTarget(m, t) <==>
      exists p: UrlParts :: WellFormed(m == CONNECT, p) && Render(p) == t && (p.authority != "" || p.path != "" || p.mark)
  {
    var connect := m == CONNECT;
    var p := ReadUrl(connect, t);
    EndOfRead(m, t);
    hide ReadUrl, StateOf, ParseUrlChar, WellFormed, Render;
    forall q: UrlParts { ReadExactly(connect, t, q); }
    if p.Some? {
      EndsBeyond(connect, p.value);
      if t == "" { EmptyParts(connect, p.value); }
    }
  }

  lemma {:induction false} EndOfRead(m: Method, t: string)
    ensures var p := ReadUrl(m == CONNECT, t);
            UrlEnd(UrlStart(m), t) == if p == None then Dead else StateOf(m == CONNECT, p.value)
    decreases |t|
  {
    var connect := m == CONNECT;
    hide ParseUrlChar, StateOf, WellFormed, Grow;
    if t == "" {
      StartOfRead(m);
    } else {
      var init, ch := t[..|t| - 1], t[|t| - 1];
      EndOfRead(m, init);
      UrlCharIsNoSpace(Dead, ch);
      ReadSound(connect, init);
      var p := ReadUrl(connect, init);
      if p.Some? { GrowKeeps(connect, p.value, ch); }
    }
  }

  lemma StartOfRead(m: Method)
    ensures StateOf(m == CONNECT, NO_PARTS) == UrlStart(m)
  {
  }

  lemma EndsBeyond(connect: bool, p: UrlParts)
    requires WellFormed(connect, p)
    ensures UrlMayEnd(StateOf(connect, p)) <==> (p.authority != "" || p.path != "" || p.mark)
  {
    hide IsAuthority, IsPath, IsQuery, IsFragment, AllAlpha;
  }

  lemma EmptyParts(connect: bool, p: UrlParts)
    requires WellFormed(connect, p) && Render(p) == ""
    ensures p.authority == "" && p.path == "" && !p.mark
  {
    hide IsAuthority, IsPath, IsQuery, IsFragment, AllAlpha, Hashes, Colons;
  }
}
