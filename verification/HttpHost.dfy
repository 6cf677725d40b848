/** The host automaton of base/http_parser.cc (`http_parse_host_char`): user info, host and port, and
    the text that they make up. */
module HttpHost {
  import opened Options
  import opened HttpSwitch

  datatype HostState =
    | HostDead | UserinfoStart | Userinfo | HostStart | HostV6Start | Host | HostV6 | HostV6End
    | HostPortStart | HostPort

  predicate IsHostChar(c: char) { IsAlphaNum(c) || c == '.' || c == '-' }

  predicate IsHex(c: char) { IsNum(c) || 'a' <= Lower(c) <= 'f' }

  predicate IsV6Char(c: char) { IsHex(c) || c == ':' || c == '.' }

  function ParseHostChar(s: HostState, ch: char): HostState {
    match s
    case UserinfoStart | Userinfo =>
      if ch == '@' then HostStart else if IsUserinfoChar(ch) then Userinfo else HostDead
    case HostStart => if ch == '[' then HostV6Start else if IsHostChar(ch) then Host else HostDead
    case Host => if IsHostChar(ch) then Host else if ch == ':' then HostPortStart else HostDead
    case HostV6End => if ch == ':' then HostPortStart else HostDead
    case HostV6 => if ch == ']' then HostV6End else if IsV6Char(ch) then HostV6 else HostDead
    case HostV6Start => if IsV6Char(ch) then HostV6 else HostDead
    case HostPort | HostPortStart => if IsNum(ch) then HostPort else HostDead
    case HostDead => HostDead
  }

  /** `at`, `open`, `close` and `colon` say whether an '@', a '[', a ']' and a ':' have been read. */
  datatype HostParts = HostParts(userinfo: string, at: bool, open: bool, host: string, close: bool, colon: bool,
                                 port: string)

  const NO_HOST: HostParts := HostParts("", false, false, "", false, false, "")

  function If(b: bool, s: string): string { if b then s else "" }

  function HostFront(h: HostParts): string { h.userinfo + If(h.at, "@") + If(h.open, "[") }

  function HostBack(h: HostParts): string { h.host + If(h.close, "]") + If(h.colon, ":") + h.port }

  function RenderHost(h: HostParts): string { HostFront(h) + HostBack(h) }

  predicate IsUserinfo(s: string) { forall i :: 0 <= i < |s| ==> IsUserinfoChar(s[i]) }

  predicate IsHostName(v6: bool, s: string) { forall i :: 0 <= i < |s| ==> if v6 then IsV6Char(s[i]) else IsHostChar(s[i]) }

  predicate IsPort(s: string) { forall i :: 0 <= i < |s| ==> IsNum(s[i]) }

  /** The start of what can be an authority; `found` says that there is an '@' in it. */
  predicate HostFits(found: bool, h: HostParts) {
    && IsUserinfo(h.userinfo) && (!found ==> h.userinfo == "" && !h.at)
    && (h.open || h.host != "" ==> !found || h.at)
    && IsHostName(h.open, h.host) && (h.close ==> h.open && h.host != "")
    && (h.colon ==> h.host != "" && (h.open ==> h.close))
    && IsPort(h.port) && (h.port != "" ==> h.colon)
  }

  /** All of one. */
  predicate HostWhole(h: HostParts) {
    h.host != "" && (h.open ==> h.close) && (h.colon ==> h.port != "")
  }

  function StartHost(found: bool): HostState { if found then UserinfoStart else HostStart }

  function HostStateOf(found: bool, h: HostParts): HostState {
    if h.port != "" then HostPort
    else if h.colon then HostPortStart
    else if h.close then HostV6End
    else if h.open then (if h.host == "" then HostV6Start else HostV6)
    else if h.host != "" then Host
    else if !found || h.at then HostStart
    else if h.userinfo != "" then Userinfo
    else UserinfoStart
  }

  function GrowHost(h: HostParts, s: HostState, ch: char): HostParts {
    match s
    case Userinfo => h.(userinfo := h.userinfo + [ch])
    case HostStart => h.(at := true)
    case HostV6Start => h.(open := true)
    case Host | HostV6 => h.(host := h.host + [ch])
    case HostV6End => h.(close := true)
    case HostPortStart => h.(colon := true)
    case HostPort => h.(port := h.port + [ch])
    case UserinfoStart | HostDead => h
  }

  function ReadHost(found: bool, t: string): Option<HostParts> {
    if t == "" then Some(NO_HOST)
    else
      var h := ReadHost(found, t[..|t| - 1]);
      if h == None then None else ReadHostOne(found, h.value, t[|t| - 1])
  }

  function ReadHostOne(found: bool, h: HostParts, ch: char): Option<HostParts> {
    var s := ParseHostChar(HostStateOf(found, h), ch);
    if s.HostDead? then None else Some(GrowHost(h, s, ch))
  }

  // ---------------------------------------------------------------- reading adds to the text

  lemma GrowHostKeeps(found: bool, h: HostParts, ch: char)
    requires HostFits(found, h)
    ensures var s := ParseHostChar(HostStateOf(found, h), ch);
      !s.HostDead? ==> HostFits(found, GrowHost(h, s, ch)) && HostStateOf(found, GrowHost(h, s, ch)) == s
  {
    hide IsUserinfoChar, IsAlphaNum, IsHex;
  }

  predicate InFront(s: HostState) { s.Userinfo? || s.HostStart? || s.HostV6Start? }

  /** What has not been read before state `s` is entered with `ch`. */
  predicate NotYet(h: HostParts, s: HostState, ch: char) {
    && !s.HostDead? && !s.UserinfoStart?
    && (!s.HostPort? ==> h.port == "")
    && (!s.HostPort? ==> !h.colon)
    && (InFront(s) || s.Host? || s.HostV6? || s.HostV6End? ==> !h.close)
    && (InFront(s) ==> h.host == "" && !h.open)
    && (s.Userinfo? || s.HostStart? ==> !h.at)
    && (s.HostStart? ==> ch == '@') && (s.HostV6Start? ==> ch == '[') && (s.HostV6End? ==> ch == ']')
    && (s.HostPortStart? ==> ch == ':')
  }

  lemma HostWaysIn(found: bool, h: HostParts, ch: char)
    requires HostFits(found, h)
    ensures var s := ParseHostChar(HostStateOf(found, h), ch); !s.HostDead? ==> NotYet(h, s, ch)
  {
    hide IsUserinfoChar, IsHostChar, IsV6Char, IsNum, IsUserinfo, IsHostName, IsPort;
  }

  lemma HostTextGrows(h: HostParts, s: HostState, ch: char)
    requires NotYet(h, s, ch)
    ensures RenderHost(GrowHost(h, s, ch)) == RenderHost(h) + [ch]
  {
    var g := GrowHost(h, s, ch);
    if InFront(s) {
      assert HostBack(h) == "" && HostBack(g) == "";
      FrontGrows(h, s, ch);
      hide HostFront, HostBack;
    } else {
      BackGrows(h, s, ch);
      hide HostBack;
      assert HostFront(g) == HostFront(h);
    }
  }

  lemma FrontGrows(h: HostParts, s: HostState, ch: char)
    requires NotYet(h, s, ch) && InFront(s)
    ensures HostFront(GrowHost(h, s, ch)) == HostFront(h) + [ch]
  {
    assert !s.HostV6Start? && !h.at ==> HostFront(h) == h.userinfo;
  }

  lemma BackGrows(h: HostParts, s: HostState, ch: char)
    requires NotYet(h, s, ch) && !InFront(s)
    ensures HostBack(GrowHost(h, s, ch)) == HostBack(h) + [ch]
  {
    assert !h.close && !h.colon && h.port == "" ==> HostBack(h) == h.host;
    assert !h.colon && h.port == "" ==> HostBack(h) == h.host + If(h.close, "]");
  }

  lemma HostOneSound(found: bool, h: HostParts, ch: char)
    requires HostFits(found, h)
    ensures var g := ReadHostOne(found, h, ch);
      g.Some? ==> HostFits(found, g.value) && RenderHost(g.value) == RenderHost(h) + [ch]
  {
    var s := ParseHostChar(HostStateOf(found, h), ch);
    GrowHostKeeps(found, h, ch);
    HostWaysIn(found, h, ch);
    hide ParseHostChar, HostStateOf, GrowHost, HostFits, NotYet, RenderHost;
    if !s.HostDead? { HostTextGrows(h, s, ch); }
  }

  lemma {:induction false} ReadHostSound(found: bool, t: string)
    ensures var h := ReadHost(found, t); h.Some? ==> HostFits(found, h.value) && RenderHost(h.value) == t
    decreases |t|
  {
    hide HostFits, RenderHost, ReadHostOne;
    if t == "" {
      NoHostFits(found);
    } else {
      var init, ch := t[..|t| - 1], t[|t| - 1];
      ReadHostSound(found, init);
      var h := ReadHost(found, init);
      if h.Some? { HostOneSound(found, h.value, ch); }
      assert t == init + [ch];
    }
  }

  lemma NoHostFits(found: bool)
    ensures HostFits(found, NO_HOST) && RenderHost(NO_HOST) == ""
  {}

  // ---------------------------------------------------------------- every authority is read

  function ShrinkHost(h: HostParts): HostParts {
    if h.port != "" then h.(port := h.port[..|h.port| - 1])
    else if h.colon then h.(colon := false)
    else if h.close then h.(close := false)
    else if h.host != "" then h.(host := h.host[..|h.host| - 1])
    else if h.open then h.(open := false)
    else if h.at then h.(at := false)
    else if h.userinfo != "" then h.(userinfo := h.userinfo[..|h.userinfo| - 1])
    else h
  }

  function LastOfHost(h: HostParts): char {
    if h.port != "" then h.port[|h.port| - 1]
    else if h.colon then ':'
    else if h.close then ']'
    else if h.host != "" then h.host[|h.host| - 1]
    else if h.open then '['
    else if h.at then '@'
    else if h.userinfo != "" then h.userinfo[|h.userinfo| - 1]
    else '@'
  }

  lemma CharsApart(ch: char)
    ensures IsUserinfoChar(ch) ==> ch != '@'
    ensures IsV6Char(ch) ==> ch != ']'
    ensures IsHostChar(ch) ==> ch != '[' && ch != ':'
    ensures !IsV6Char(']') && !IsHostChar(':') && !IsHostChar('[')
  {}

  lemma HostShrunk(found: bool, h: HostParts)
    requires HostFits(found, h) && h != NO_HOST
    ensures HostFits(found, ShrinkHost(h)) && ReadHostOne(found, ShrinkHost(h), LastOfHost(h)) == Some(h)
  {
    CharsApart(LastOfHost(h));
    HostShrinks(found, h);
    hide HostFits, IsUserinfoChar, IsHostChar, IsV6Char, IsNum;
    HostGrowsBack(h);
  }

  lemma HostGrowsBack(h: HostParts)
    requires h != NO_HOST
    ensures h.port != "" ==> ShrinkHost(h).port + [LastOfHost(h)] == h.port
    ensures h.port == "" && !h.colon && !h.close && h.host != "" ==> ShrinkHost(h).host + [LastOfHost(h)] == h.host
    ensures h == NO_HOST.(userinfo := h.userinfo) ==> ShrinkHost(h).userinfo + [LastOfHost(h)] == h.userinfo
  {}

  lemma HostShrinks(found: bool, h: HostParts)
    requires HostFits(found, h) && h != NO_HOST
    ensures HostFits(found, ShrinkHost(h))
    ensures var s := ParseHostChar(HostStateOf(found, ShrinkHost(h)), LastOfHost(h)); s == HostStateOf(found, h) && !s.HostDead?
  {
    CharsApart(LastOfHost(h));
    hide IsUserinfoChar, IsHostChar, IsV6Char, IsNum;
  }

  lemma {:induction false} HostReadBack(found: bool, h: HostParts)
    requires HostFits(found, h)
    ensures ReadHost(found, RenderHost(h)) == Some(h)
    decreases |RenderHost(h)|
  {
    if h != NO_HOST {
      HostShrunk(found, h);
      HostOneSound(found, ShrinkHost(h), LastOfHost(h));
      hide HostFits, RenderHost, ReadHostOne;
      HostReadBack(found, ShrinkHost(h));
      assert RenderHost(h)[..|RenderHost(h)| - 1] == RenderHost(ShrinkHost(h));
    }
  }

  /** The automaton takes an authority apart into the parts that make it up, in the one way there is. */
  lemma ReadHostExactly(found: bool, t: string, h: HostParts)
    ensures ReadHost(found, t) == Some(h) <==> HostFits(found, h) && RenderHost(h) == t
  {
    ReadHostSound(found, t);
    if HostFits(found, h) { HostReadBack(found, h); }
  }
}
