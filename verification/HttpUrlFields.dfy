/** Where `http_parser_parse_url` and `http_parse_host` (base/http_parser.cc) say the fields of a URL
    are. */
module HttpUrlFields {
  import opened Options
  import opened HttpTypes
  import opened HttpSwitch
  import opened HttpUrl
  import opened HttpHost

  /** The order of the enumeration, not of the text. */
  const UF_SCHEMA: nat := 0
  const UF_HOST: nat := 1
  const UF_PORT: nat := 2
  const UF_PATH: nat := 3
  const UF_QUERY: nat := 4
  const UF_FRAGMENT: nat := 5
  const UF_USERINFO: nat := 6
  const UF_MAX: nat := 7

  datatype Slice = Slice(off: nat, len: nat)

  // ---------------------------------------------------------------- the first pass

  function AuthorityAt(p: UrlParts): nat { |p.schema| + p.slashes }

  function PathAt(p: UrlParts): nat { AuthorityAt(p) + |p.authority| }

  function QueryAt(p: UrlParts): nat { PathAt(p) + |p.path| + if p.mark then 1 else 0 }

  function FragmentAt(p: UrlParts): nat { QueryAt(p) + |p.query| + p.hashes }

  /** The place of a field of the first pass, in which the host is the whole authority. */
  function OuterSlice(p: UrlParts, f: nat): Slice {
    if f == UF_SCHEMA then Slice(0, |p.schema|)
    else if f == UF_HOST then Slice(AuthorityAt(p), |p.authority|)
    else if f == UF_PATH then Slice(PathAt(p), |p.path|)
    else if f == UF_QUERY then Slice(QueryAt(p), |p.query|)
    else if f == UF_FRAGMENT then Slice(FragmentAt(p), |p.fragment|)
    else Slice(0, 0)
  }

  predicate OuterHas(p: UrlParts, f: nat) { OuterSlice(p, f).len > 0 }

  /** The field that has grown last. */
  function LastField(p: UrlParts): nat {
    if p.fragment != "" then UF_FRAGMENT
    else if p.query != "" then UF_QUERY
    else if p.path != "" then UF_PATH
    else if p.authority != "" then UF_HOST
    else if p.schema != "" then UF_SCHEMA
    else UF_MAX
  }

  /** The field of the character that leads to a state; UF_MAX for a delimiter. */
  function FieldOf(s: State): nat {
    if s.ReqSchema? then UF_SCHEMA
    else if s.ReqServerWithAt? || s.ReqServer? then UF_HOST
    else if s.ReqPath? then UF_PATH
    else if s.ReqQueryString? then UF_QUERY
    else if s.ReqFragment? then UF_FRAGMENT
    else UF_MAX
  }

  lemma RenderedLength(p: UrlParts)
    requires p.slashes <= 3
    ensures |Render(p)| == FragmentAt(p) + |p.fragment|
  {}

  /** What has not been read before state `s` is entered. */
  predicate NotBefore(p: UrlParts, s: State) {
    && (!s.ReqFragment? ==> p.fragment == "")
    && (!s.ReqFragment? && !s.ReqFragmentStart? ==> p.hashes == 0)
    && (!s.ReqFragment? && !s.ReqFragmentStart? && !s.ReqQueryString? ==> p.query == "" && !p.mark)
    && (Early(s) || s.ReqServer? || s.ReqServerWithAt? ==> p.path == "")
    && (Early(s) ==> p.authority == "")
    && (s.ReqSchema? ==> p.slashes == 0)
  }

  predicate Early(s: State) { s.ReqSchema? || s.ReqSchemaSlash? || s.ReqSchemaSlashSlash? || s.ReqServerStart? }

  predicate Going(s: State) { UrlState(s) && !s.ReqSpacesBeforeUrl? }

  lemma NoneBefore(connect: bool, p: UrlParts, ch: char)
    requires WellFormed(connect, p)
    ensures var s := ParseUrlChar(StateOf(connect, p), ch); !s.Dead? ==> NotBefore(p, s) && Going(s) && p.slashes <= 3
  {
    var s := ParseUrlChar(StateOf(connect, p), ch);
    WaysIn(StateOf(connect, p), ch);
    assert !s.Dead? ==> Going(s);
    assert p.slashes <= 3;
    hide ParseUrlChar, StateOf, Comes, WellFormed;
    if Early(s) || s.ReqServer? || s.ReqServerWithAt? {
      FrontEnds(connect, p, s, ch);
    } else if !s.Dead? {
      EndOf(connect, p, s, ch);
    }
  }

  /** The other fields stay where they are. */
  ghost predicate OthersStay(p: UrlParts, q: UrlParts, f: nat) {
    forall g :: g != f ==> (OuterHas(q, g) <==> OuterHas(p, g)) && (OuterHas(p, g) ==> OuterSlice(q, g) == OuterSlice(p, g))
  }

  lemma OthersKept(p: UrlParts, s: State, ch: char)
    requires NotBefore(p, s) && Going(s)
    ensures OthersStay(p, Grow(p, s, ch), FieldOf(s))
  {}

  lemma OneGrows(p: UrlParts, s: State, ch: char)
    requires NotBefore(p, s) && Going(s) && FieldOf(s) != UF_MAX && p.slashes <= 3
    ensures var q, f := Grow(p, s, ch), FieldOf(s);
      && LastField(q) == f && (OuterHas(p, f) <==> LastField(p) == f)
      && OuterSlice(q, f) ==
         if OuterHas(p, f) then Slice(OuterSlice(p, f).off, OuterSlice(p, f).len + 1) else Slice(|Render(p)|, 1)
  {
    RenderedLength(p);
    hide Render;
  }

  lemma NoneGrows(p: UrlParts, s: State, ch: char)
    requires NotBefore(p, s) && Going(s) && FieldOf(s) == UF_MAX
    ensures LastField(Grow(p, s, ch)) == LastField(p)
  {}

  // ---------------------------------------------------------------- the second pass

  function HostAt(h: HostParts): nat { |h.userinfo| + (if h.at then 1 else 0) + if h.open then 1 else 0 }

  function PortAt(h: HostParts): nat { HostAt(h) + |h.host| + (if h.close then 1 else 0) + if h.colon then 1 else 0 }

  /** The place of a field of the second pass, counted from the start of the authority. */
  function InnerSlice(h: HostParts, f: nat): Slice {
    if f == UF_USERINFO then Slice(0, |h.userinfo|)
    else if f == UF_HOST then Slice(HostAt(h), |h.host|)
    else if f == UF_PORT then Slice(PortAt(h), |h.port|)
    else Slice(0, 0)
  }

  predicate InnerHas(h: HostParts, f: nat) { InnerSlice(h, f).len > 0 }

  function HostFieldOf(s: HostState): nat {
    if s.Userinfo? then UF_USERINFO
    else if s.Host? || s.HostV6? then UF_HOST
    else if s.HostPort? then UF_PORT
    else UF_MAX
  }

  lemma RenderedHostLength(h: HostParts)
    ensures |RenderHost(h)| == PortAt(h) + |h.port|
  {}

  predicate InnerStays(h: HostParts, g: HostParts, f: nat) {
    (InnerHas(g, f) <==> InnerHas(h, f)) && (InnerHas(h, f) ==> InnerSlice(g, f) == InnerSlice(h, f))
  }

  lemma InnerGrows(found: bool, h: HostParts, ch: char)
    requires HostFits(found, h)
    ensures var s := ParseHostChar(HostStateOf(found, h), ch); var g, f := GrowHost(h, s, ch), HostFieldOf(s);
      !s.HostDead? ==>
        && (f != UF_USERINFO ==> InnerStays(h, g, UF_USERINFO))
        && (f != UF_HOST ==> InnerStays(h, g, UF_HOST))
        && (f != UF_PORT ==> InnerStays(h, g, UF_PORT))
        && (f != UF_MAX ==>
              && (InnerHas(h, f) <==> HostStateOf(found, h) == s)
              && InnerSlice(g, f) ==
                 if InnerHas(h, f) then Slice(InnerSlice(h, f).off, InnerSlice(h, f).len + 1)
                 else Slice(|RenderHost(h)|, 1))
  {
    HostWaysIn(found, h, ch);
    RenderedHostLength(h);
    hide RenderHost, IsUserinfoChar, IsHostChar, IsV6Char, IsNum, IsUserinfo, IsHostName, IsPort;
  }

  // ---------------------------------------------------------------- the whole URL

  /** A URL and its authority taken apart. */
  datatype Whole = Whole(parts: UrlParts, host: HostParts)

  predicate HasAt(s: string) { '@' in s }

  predicate NeedsHost(p: UrlParts) { p.schema != "" || p.authority != "" }

  /** The URL in its parts, if it has a host where it needs one. */
  function TakenApart(connect: bool, t: string): Option<Whole> {
    var p := ReadUrl(connect, t);
    if p == None then None
    else if !NeedsHost(p.value) then Some(Whole(p.value, NO_HOST))
    else
      var h := ReadHost(HasAt(p.value.authority), p.value.authority);
      if h == None || !HostWhole(h.value) then None else Some(Whole(p.value, h.value))
  }

  function SliceOf(w: Whole, f: nat): Slice {
    if f == UF_USERINFO || f == UF_HOST || f == UF_PORT then
      var s := InnerSlice(w.host, f);
      Slice(AuthorityAt(w.parts) + s.off, s.len)
    else OuterSlice(w.parts, f)
  }

  predicate Has(w: Whole, f: nat) { SliceOf(w, f).len > 0 }

  function FieldSet(w: Whole): set<nat> { set f | 0 <= f < UF_MAX && Has(w, f) }

  /** What a field holds. */
  function Content(w: Whole, f: nat): string {
    if f == UF_SCHEMA then w.parts.schema
    else if f == UF_USERINFO then w.host.userinfo
    else if f == UF_HOST then w.host.host
    else if f == UF_PORT then w.host.port
    else if f == UF_PATH then w.parts.path
    else if f == UF_QUERY then w.parts.query
    else if f == UF_FRAGMENT then w.parts.fragment
    else ""
  }

  /** The order in the text. */
  function Rank(f: nat): nat {
    if f == UF_SCHEMA then 0
    else if f == UF_USERINFO then 1
    else if f == UF_HOST then 2
    else if f == UF_PORT then 3
    else if f == UF_PATH then 4
    else if f == UF_QUERY then 5
    else if f == UF_FRAGMENT then 6
    else 7
  }

  function EndOfSlice(s: Slice): nat { s.off + s.len }

  predicate Nested(w: Whole) { |w.parts.authority| == PortAt(w.host) + |w.host.port| }

  /** The parts make up the text, and the parts of the host its authority. */
  predicate MakesUp(w: Whole, t: string) {
    w.parts.slashes <= 3 && Render(w.parts) == t && RenderHost(w.host) == w.parts.authority
  }

  lemma PartsMakeUp(connect: bool, t: string)
    ensures var w := TakenApart(connect, t); w.Some? ==> MakesUp(w.value, t)
  {
    ReadSound(connect, t);
    var p := ReadUrl(connect, t);
    if p.Some? {
      assert p.value.slashes <= 3;
      ReadHostSound(HasAt(p.value.authority), p.value.authority);
      NoHostFits(false);
      hide Render, RenderHost, WellFormed, HostFits, ReadUrl, ReadHost;
    }
  }

  /** The host where one is needed, and nothing where none is. */
  predicate HostMeets(w: Whole) {
    if NeedsHost(w.parts) then HostFits(HasAt(w.parts.authority), w.host) && HostWhole(w.host) else w.host == NO_HOST
  }

  /** A text is taken apart exactly if it is made up of parts that fit, and into those. */
  lemma TakenApartExactly(connect: bool, t: string, w: Whole)
    ensures TakenApart(connect, t) == Some(w) <==>
            WellFormed(connect, w.parts) && HostMeets(w) && MakesUp(w, t)
  {
    assert WellFormed(connect, w.parts) ==> w.parts.slashes <= 3;
    hide WellFormed, HostFits, HostWhole, Render, RenderHost, ReadUrl, ReadHost, HasAt;
    ReadExactly(connect, t, w.parts);
    ReadHostExactly(HasAt(w.parts.authority), w.parts.authority, w.host);
    NoHostFits(false);
  }

  lemma LengthsAgree(w: Whole, t: string)
    requires MakesUp(w, t)
    ensures Nested(w) && |t| == Cut(w, 7)
  {
    RenderedLength(w.parts);
    RenderedHostLength(w.host);
    hide Render, RenderHost;
  }

  /** Between which places of the text the field of a rank lies. */
  function Cut(w: Whole, r: nat): nat {
    if r == 0 then 0
    else if r == 1 then AuthorityAt(w.parts)
    else if r == 2 then AuthorityAt(w.parts) + HostAt(w.host)
    else if r == 3 then AuthorityAt(w.parts) + HostAt(w.host) + |w.host.host|
    else if r == 4 then PathAt(w.parts)
    else if r == 5 then PathAt(w.parts) + |w.parts.path|
    else if r == 6 then QueryAt(w.parts) + |w.parts.query|
    else FragmentAt(w.parts) + |w.parts.fragment|
  }

  lemma Between(w: Whole, f: nat)
    requires Nested(w) && f < UF_MAX
    ensures Cut(w, Rank(f)) <= SliceOf(w, f).off && EndOfSlice(SliceOf(w, f)) <= Cut(w, Rank(f) + 1)
  {}

  lemma CutsRise(w: Whole, q: nat, r: nat)
    requires Nested(w) && q <= r <= 7
    ensures Cut(w, q) <= Cut(w, r)
  {
    if q < r {
      assert Cut(w, r - 1) <= Cut(w, r);
      CutsRise(w, q, r - 1);
    }
  }

  /** The fields lie in the text, one behind the other in the order of section 3 of RFC 3986. */
  lemma InOrder(connect: bool, t: string, f: nat, g: nat)
    requires TakenApart(connect, t).Some? && f < UF_MAX && g < UF_MAX
    ensures var w := TakenApart(connect, t).value;
      && EndOfSlice(SliceOf(w, f)) <= |t|
      && (Rank(f) < Rank(g) ==> EndOfSlice(SliceOf(w, f)) <= SliceOf(w, g).off)
  {
    PartsMakeUp(connect, t);
    var w := TakenApart(connect, t).value;
    LengthsAgree(w, t);
    hide *;
    Between(w, f);
    Between(w, g);
    assert Rank(f) + 1 <= 7 && Rank(g) <= 6 by { RankBound(f); RankBound(g); }
    CutsRise(w, Rank(f) + 1, 7);
    if Rank(f) < Rank(g) { CutsRise(w, Rank(f) + 1, Rank(g)); }
  }

  lemma RankBound(f: nat)
    requires f < UF_MAX
    ensures Rank(f) <= 6
  {}

  // ---------------------------------------------------------------- what the fields hold

  lemma Middle(a: string, b: string, c: string)
    ensures (a + b + c)[|a|..|a| + |b|] == b
  {}

  /** What stands in front of a field of the authority, and behind it. */
  lemma InnerContent(h: HostParts, f: nat)
    requires f == UF_USERINFO || f == UF_HOST || f == UF_PORT
    ensures var s := InnerSlice(h, f);
      EndOfSlice(s) <= |RenderHost(h)|
      && RenderHost(h)[s.off..EndOfSlice(s)] == Content(Whole(NO_PARTS, h), f)
  {
    var t := RenderHost(h);
    if f == UF_USERINFO {
      assert t == "" + h.userinfo + (If(h.at, "@") + If(h.open, "[") + HostBack(h));
      Middle("", h.userinfo, If(h.at, "@") + If(h.open, "[") + HostBack(h));
    } else if f == UF_HOST {
      assert t == HostFront(h) + h.host + (If(h.close, "]") + If(h.colon, ":") + h.port);
      Middle(HostFront(h), h.host, If(h.close, "]") + If(h.colon, ":") + h.port);
    } else {
      assert t == HostFront(h) + (h.host + If(h.close, "]") + If(h.colon, ":")) + h.port + "";
      Middle(HostFront(h) + (h.host + If(h.close, "]") + If(h.colon, ":")), h.port, "");
    }
  }

  lemma FrontContent(p: UrlParts, f: nat)
    requires p.slashes <= 3 && (f == UF_SCHEMA || f == UF_HOST)
    ensures var s := OuterSlice(p, f);
      EndOfSlice(s) <= |Front(p)|
      && Front(p)[s.off..EndOfSlice(s)] == if f == UF_HOST then p.authority else p.schema
  {
    if f == UF_SCHEMA {
      assert Front(p) == "" + p.schema + (Colons(p.slashes) + p.authority);
      Middle("", p.schema, Colons(p.slashes) + p.authority);
    } else {
      assert Front(p) == (p.schema + Colons(p.slashes)) + p.authority + "";
      Middle(p.schema + Colons(p.slashes), p.authority, "");
    }
  }

  lemma TailContent(p: UrlParts, f: nat)
    requires f == UF_PATH || f == UF_QUERY || f == UF_FRAGMENT
    ensures var s := OuterSlice(p, f); var n := PathAt(p);
      n <= s.off && EndOfSlice(s) <= n + |Tail(p)|
      && Tail(p)[s.off - n..EndOfSlice(s) - n] == Content(Whole(p, NO_HOST), f)
  {
    var mark := if p.mark then "?" else "";
    if f == UF_PATH {
      assert Tail(p) == "" + p.path + (mark + p.query + Hashes(p.hashes) + p.fragment);
      Middle("", p.path, mark + p.query + Hashes(p.hashes) + p.fragment);
    } else if f == UF_QUERY {
      assert Tail(p) == (p.path + mark) + p.query + (Hashes(p.hashes) + p.fragment);
      Middle(p.path + mark, p.query, Hashes(p.hashes) + p.fragment);
    } else {
      assert Tail(p) == (p.path + mark + p.query + Hashes(p.hashes)) + p.fragment + "";
      Middle(p.path + mark + p.query + Hashes(p.hashes), p.fragment, "");
    }
  }

  lemma InFirst(a: string, b: string, i: nat, j: nat)
    requires i <= j <= |a|
    ensures (a + b)[i..j] == a[i..j]
  {}

  lemma InSecond(a: string, b: string, i: nat, j: nat)
    requires |a| <= i <= j <= |a| + |b|
    ensures (a + b)[i..j] == b[i - |a|..j - |a|]
  {}

  lemma OuterContent(p: UrlParts, f: nat)
    requires p.slashes <= 3 && f < UF_MAX && f != UF_USERINFO && f != UF_PORT
    ensures var s := OuterSlice(p, f);
      EndOfSlice(s) <= |Render(p)|
      && Render(p)[s.off..EndOfSlice(s)] == if f == UF_HOST then p.authority else Content(Whole(p, NO_HOST), f)
  {
    var s := OuterSlice(p, f);
    assert |Front(p)| == PathAt(p);
    hide Front, Tail;
    if f == UF_SCHEMA || f == UF_HOST {
      FrontContent(p, f);
      InFirst(Front(p), Tail(p), s.off, EndOfSlice(s));
    } else {
      TailContent(p, f);
      InSecond(Front(p), Tail(p), s.off, EndOfSlice(s));
    }
  }

  /** Every field holds the part that it is named after. */
  lemma Contents(connect: bool, t: string, f: nat)
    requires TakenApart(connect, t).Some? && f < UF_MAX
    ensures var w := TakenApart(connect, t).value; var s := SliceOf(w, f);
      EndOfSlice(s) <= |t| && t[s.off..EndOfSlice(s)] == Content(w, f)
  {
    PartsMakeUp(connect, t);
    hide TakenApart;
    ContentsOf(TakenApart(connect, t).value, t, f);
  }

  lemma ContentsOf(w: Whole, t: string, f: nat)
    requires MakesUp(w, t) && f < UF_MAX
    ensures var s := SliceOf(w, f); EndOfSlice(s) <= |t| && t[s.off..EndOfSlice(s)] == Content(w, f)
  {
    hide Render, RenderHost;
    if f == UF_USERINFO || f == UF_HOST || f == UF_PORT {
      OuterContent(w.parts, UF_HOST);
      InnerContent(w.host, f);
      var s, at, n := InnerSlice(w.host, f), AuthorityAt(w.parts), |w.parts.authority|;
      assert SliceOf(w, f) == Slice(at + s.off, s.len) && OuterSlice(w.parts, UF_HOST) == Slice(at, n);
      assert Content(Whole(NO_PARTS, w.host), f) == Content(w, f);
      hide SliceOf, OuterSlice, InnerSlice, AuthorityAt, Content;
      Inside(t, at, at + n, s.off, s.off + s.len);
    } else {
      OuterContent(w.parts, f);
    }
  }

  lemma Inside(t: string, from: nat, to: nat, i: nat, j: nat)
    requires from <= to <= |t| && i <= j <= to - from
    ensures t[from..to][i..j] == t[from + i..from + j]
  {
    var a, b := t[from..to][i..j], t[from + i..from + j];
    assert |a| == |b| && forall k :: 0 <= k < |a| ==> a[k] == b[k];
  }
}
