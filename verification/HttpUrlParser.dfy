/** `http_parser_parse_url` and `http_parse_host` of base/http_parser.cc, on the structure that they
    fill in. */
module HttpUrlParser {
  import opened Options
  import opened HttpTypes
  import opened HttpSwitch
  import opened HttpUrl
  import opened HttpHost
  import opened HttpUrlFields
  import Decimal

  const U16: nat := 0x1_0000

  lemma InnerInside(h: HostParts, f: nat)
    ensures InnerSlice(h, f).len <= |RenderHost(h)|
    ensures InnerHas(h, f) ==> InnerSlice(h, f).len > 0
  {
    RenderedHostLength(h);
  }

  /** The automaton is in state `s` when it has read `h` in the first `n` characters. */
  ghost predicate HostSoFar(found: bool, a: string, n: nat, h: HostParts, s: HostState) {
    && n <= |a| && ReadHost(found, a[..n]) == Some(h) && HostFits(found, h)
    && s == HostStateOf(found, h) && |RenderHost(h)| == n
  }

  /** struct http_parser_url. */
  class Url {
    var fieldSet: set<nat>
    var port: nat
    const fieldData: array<Slice>

    /** A structure of zeros. */
    constructor ()
      ensures fresh(fieldData) && fieldData.Length == UF_MAX && fieldSet == {} && port == 0
      ensures forall f :: 0 <= f < UF_MAX ==> fieldData[f] == Slice(0, 0)
    {
      fieldSet, port := {}, 0;
      fieldData := new Slice[UF_MAX](_ => Slice(0, 0));
    }

    ghost predicate Found(f: nat, s: Slice, base: nat)
      reads this, fieldData
      requires fieldData.Length == UF_MAX && f < UF_MAX
    {
      (f in fieldSet <==> s.len > 0) && (s.len > 0 ==> fieldData[f] == Slice(base + s.off, s.len))
    }

    /** What the second pass has found so far. */
    ghost predicate InnerFound(h: HostParts, base: nat)
      reads this, fieldData
      requires fieldData.Length == UF_MAX
    {
      && Found(UF_USERINFO, InnerSlice(h, UF_USERINFO), base) && Found(UF_PORT, InnerSlice(h, UF_PORT), base)
      && fieldData[UF_HOST].len == InnerSlice(h, UF_HOST).len
      && (InnerHas(h, UF_HOST) ==> fieldData[UF_HOST].off == base + InnerSlice(h, UF_HOST).off)
    }

    /** The second pass leaves the fields of the first alone, but for the host. */
    ghost predicate Beside(set0: set<nat>, data0: seq<Slice>)
      reads this, fieldData
      requires fieldData.Length == UF_MAX == |data0|
    {
      && (forall g :: g != UF_USERINFO && g != UF_PORT ==> (g in fieldSet <==> g in set0))
      && (forall g :: 0 <= g < UF_MAX && g != UF_HOST && g != UF_USERINFO && g != UF_PORT ==>
            fieldData[g] == data0[g])
    }

    /** Starts the field, or lets it grow. */
    method Put(f: nat, at: nat, start: bool)
      requires fieldData.Length == UF_MAX && f < UF_MAX && at < U16
      requires !start ==> f in fieldSet && fieldData[f].len + 1 < U16
      modifies this`fieldSet, fieldData
      ensures fieldSet == old(fieldSet) + {f}
      ensures fieldData[f] == if start then Slice(at, 1) else Slice(old(fieldData[f].off), old(fieldData[f].len) + 1)
      ensures forall g :: 0 <= g < UF_MAX && g != f ==> fieldData[g] == old(fieldData[g])
    {
      if start {
        fieldData[f] := Slice(at % U16, 0);
        fieldSet := fieldSet + {f};
      }
      fieldData[f] := fieldData[f].(len := (fieldData[f].len + 1) % U16);
    }

    /** The same for the host, which is in the set already and has been made empty. */
    method PutHost(at: nat, start: bool)
      requires fieldData.Length == UF_MAX && at < U16 && fieldData[UF_HOST].len + 1 < U16
      modifies fieldData
      ensures fieldData[UF_HOST] ==
              Slice(if start then at else old(fieldData[UF_HOST].off), old(fieldData[UF_HOST].len) + 1)
      ensures forall g :: 0 <= g < UF_MAX && g != UF_HOST ==> fieldData[g] == old(fieldData[g])
    {
      if start {
        fieldData[UF_HOST] := fieldData[UF_HOST].(off := at % U16);
      }
      fieldData[UF_HOST] := fieldData[UF_HOST].(len := (fieldData[UF_HOST].len + 1) % U16);
    }

    /** One character of the authority. */
    method HostStep(p: nat, s: HostState, newS: HostState, ghost found: bool, ghost a: string, ghost base: nat,
                    ghost h: HostParts, ghost set0: set<nat>, ghost data0: seq<Slice>)
      requires fieldData.Length == UF_MAX == |data0| && base <= p < U16 - 1 && p - base < |a|
      requires HostSoFar(found, a, p - base, h, s) && InnerFound(h, base) && Beside(set0, data0)
      requires newS == ParseHostChar(s, a[p - base]) && !newS.HostDead?
      modifies this`fieldSet, fieldData
      ensures InnerFound(GrowHost(h, newS, a[p - base]), base) && Beside(set0, data0)
    {
      hide ParseHostChar, HostStateOf, HostFits, RenderHost, GrowHost, InnerSlice, ReadHost, HostWhole;
      InnerGrows(found, h, a[p - base]);
      InnerInside(h, HostFieldOf(newS));
      hide HostSoFar;
      if newS.Host? || newS.HostV6? {
        PutHost(p, s != newS);
      } else if newS.HostPort? {
        Put(UF_PORT, p, s != newS);
      } else if newS.Userinfo? {
        Put(UF_USERINFO, p, s != newS);
      }
    }

    /** http_parse_host. */
    method ParseHost(mem: string, foundAt: bool) returns (code: int)
      requires fieldData.Length == UF_MAX && EndOfSlice(fieldData[UF_HOST]) <= |mem|
      requires EndOfSlice(fieldData[UF_HOST]) < U16 && UF_USERINFO !in fieldSet && UF_PORT !in fieldSet
      modifies this`fieldSet, fieldData
      ensures var base := old(fieldData[UF_HOST].off);
        var h := ReadHost(foundAt, mem[base..old(EndOfSlice(fieldData[UF_HOST]))]);
        if h.Some? && HostWhole(h.value) then code == 0 && InnerFound(h.value, base) else code == 1
      ensures Beside(old(fieldSet), old(fieldData[..]))
    {
      hide HostWhole, HostSoFar, ParseHostChar, GrowHost, ReadHost, HostStateOf, HostFits, RenderHost;
      var buflen := EndOfSlice(fieldData[UF_HOST]);
      ghost var base := fieldData[UF_HOST].off;
      ghost var a := mem[base..buflen];
      ghost var set0, data0 := fieldSet, fieldData[..];
      fieldData[UF_HOST] := fieldData[UF_HOST].(len := 0);
      var s := StartHost(foundAt);
      var p := fieldData[UF_HOST].off;
      ghost var h := NO_HOST;
      NothingSoFar(foundAt, a);
      assert InnerFound(h, base) && Beside(set0, data0);
      hide InnerFound, Beside;
      while p < buflen
        invariant base <= p <= buflen
        invariant HostSoFar(foundAt, a, p - base, h, s) && InnerFound(h, base) && Beside(set0, data0)
      {
        var newS := ParseHostChar(s, mem[p]);
        assert mem[p] == a[p - base];
        HostOneMore(foundAt, a, p - base, h, s);
        if newS.HostDead? { return 1; }
        HostStep(p, s, newS, foundAt, a, base, h, set0, data0);
        h := GrowHost(h, newS, mem[p]);
        s := newS;
        p := p + 1;
      }
      WholeAtEnd(foundAt, a, h, s);
      if s.HostStart? || s.HostV6Start? || s.HostV6? || s.HostPortStart? || s.Userinfo? || s.UserinfoStart? {
        return 1;
      }
      return 0;
    }

    /** What the first pass has found so far. */
    ghost predicate OuterFound(p: UrlParts)
      reads this, fieldData
      requires fieldData.Length == UF_MAX
    {
      && (forall f :: f in fieldSet ==> f < UF_MAX)
      && (forall f :: 0 <= f < UF_MAX ==> Found(f, OuterSlice(p, f), 0))
      && (!OuterHas(p, UF_HOST) ==> fieldData[UF_HOST] == Slice(0, 0))
    }

    /** One character of the URL. */
    method UrlStep(at: nat, s: State, oldUf: nat, ghost connect: bool, ghost t: string, ghost p: UrlParts,
                   ghost before: State)
        returns (uf: nat)
      requires fieldData.Length == UF_MAX && at < |t| < U16
      requires UrlSoFar(connect, t, at, p, before) && OuterFound(p) && oldUf == LastField(p)
      requires s == ParseUrlChar(before, t[at]) && !s.Dead?
      modifies this`fieldSet, fieldData
      ensures OuterFound(Grow(p, s, t[at])) && uf == LastField(Grow(p, s, t[at]))
    {
      hide ParseUrlChar, StateOf, WellFormed, Render, Grow, ReadUrl;
      ghost var ch := t[at];
      NoneBefore(connect, p, ch);
      OthersKept(p, s, ch);
      uf := FieldOf(s);
      if uf == UF_MAX {
        NoneGrows(p, s, ch);
        hide UrlSoFar, OuterSlice;
        return oldUf;
      }
      OneGrows(p, s, ch);
      OuterInside(p, uf);
      hide UrlSoFar, OuterSlice, LastField, NotBefore, Going;
      Put(uf, at, uf != oldUf);
    }

    /** http_parser_parse_url, on a structure of zeros; `mem` starts with the URL. */
    method ParseUrl(mem: string, buflen: nat, isConnect: bool) returns (code: int)
      requires buflen <= |mem| && buflen < U16
      requires fieldData.Length == UF_MAX && fieldData[UF_HOST] == Slice(0, 0)
      modifies this, fieldData
      ensures var w := Accepted(isConnect, mem, buflen);
        if w == None then code == 1 else code == 0 && Holds(w.value) && port == PortOf(w.value, mem)
    {
      hide UrlSoFar, ParseUrlChar, Grow, Accepted, ReadUrl, Holds, PortOf;
      ghost var t := mem[..buflen];
      port, fieldSet := 0, {};
      var s := StartState(isConnect);
      var uf, foundAt := UF_MAX, false;
      ghost var parts := NO_PARTS;
      NoUrlSoFar(isConnect, t);
      assert OuterFound(parts);
      hide OuterFound, LastField;
      var p := 0;
      while p < buflen
        invariant 0 <= p <= buflen && port == 0
        invariant UrlSoFar(isConnect, t, p, parts, s) && OuterFound(parts) && uf == LastField(parts)
        invariant foundAt == HasAt(parts.authority)
      {
        ghost var before := s;
        UrlOneMore(isConnect, t, p, parts, s);
        s := ParseUrlChar(s, mem[p]);
        if s.Dead? {
          NotAccepted(isConnect, mem, buflen);
          return 1;
        }
        uf := UrlStep(p, s, uf, isConnect, t, parts, before);
        if s.ReqServerWithAt? { foundAt := true; }
        parts := Grow(parts, s, mem[p]);
        p := p + 1;
      }
      UrlRead(isConnect, t, parts, s);
      code := Finish(mem, buflen, isConnect, foundAt, parts);
    }

    /** What comes after the loop. */
    method Finish(mem: string, ghost buflen: nat, isConnect: bool, foundAt: bool, ghost parts: UrlParts)
        returns (code: int)
      requires buflen <= |mem| && buflen < U16 && fieldData.Length == UF_MAX && port == 0
      requires ReadUrl(isConnect, mem[..buflen]) == Some(parts) && OuterFound(parts) && foundAt == HasAt(parts.authority)
      modifies this, fieldData
      ensures var w := Accepted(isConnect, mem, buflen);
        if w == None then code == 1 else code == 0 && Holds(w.value) && port == PortOf(w.value, mem)
    {
      hide OuterFound, TakenApart, FieldSet, SliceOf, ReadUrl, StrToUl;
      ghost var w := TakenApart(isConnect, mem[..buflen]);
      code := HostPass(mem, buflen, isConnect, foundAt, parts);
      if code != 0 { return 1; }
      if isConnect && fieldSet != {UF_HOST, UF_PORT} { return 1; }
      HasPort(w.value);
      if UF_PORT in fieldSet {
        InOrder(isConnect, mem[..buflen], UF_PORT, UF_PORT);
        var v := StrToUl(mem[fieldData[UF_PORT].off..]);
        if v > 0xffff { return 1; }
        port := v;
      }
      return 0;
    }

    method HostPass(mem: string, ghost buflen: nat, isConnect: bool, foundAt: bool, ghost parts: UrlParts)
        returns (code: int)
      requires buflen <= |mem| && buflen < U16 && fieldData.Length == UF_MAX
      requires ReadUrl(isConnect, mem[..buflen]) == Some(parts) && OuterFound(parts) && foundAt == HasAt(parts.authority)
      modifies this`fieldSet, fieldData
      ensures var w := TakenApart(isConnect, mem[..buflen]);
        if w == None then code == 1 else code == 0 && Holds(w.value)
    {
      hide ReadUrl, ReadHost;
      AuthorityIn(isConnect, mem, buflen);
      assert Found(UF_SCHEMA, OuterSlice(parts, UF_SCHEMA), 0) && Found(UF_HOST, OuterSlice(parts, UF_HOST), 0);
      assert Found(UF_USERINFO, OuterSlice(parts, UF_USERINFO), 0) && Found(UF_PORT, OuterSlice(parts, UF_PORT), 0);
      if UF_SCHEMA in fieldSet || UF_HOST in fieldSet {
        ghost var set0, data0 := fieldSet, fieldData[..];
        ghost var h := ReadHost(foundAt, parts.authority);
        if parts.authority == "" { NoHostRead(); }
        code := ParseHost(mem, foundAt);
        if code == 0 {
          HoldsNow(parts, h.value, set0, data0);
        }
        return;
      }
      HoldsAlready(parts);
      return 0;
    }

    /** The fields are those of the URL. */
    ghost predicate Holds(w: Whole)
      reads this, fieldData
    {
      fieldData.Length == UF_MAX && fieldSet == FieldSet(w) && forall f :: f in FieldSet(w) ==> fieldData[f] == SliceOf(w, f)
    }

    lemma HoldsNow(p: UrlParts, h: HostParts, set0: set<nat>, data0: seq<Slice>)
      requires fieldData.Length == UF_MAX == |data0| && Beside(set0, data0) && InnerFound(h, AuthorityAt(p))
      requires forall f :: f in set0 ==> f < UF_MAX
      requires forall f :: 0 <= f < UF_MAX ==>
        (f in set0 <==> OuterHas(p, f)) && (OuterHas(p, f) ==> data0[f] == OuterSlice(p, f))
      requires h.host != "" && p.authority != ""
      ensures Holds(Whole(p, h))
    {
    }

    lemma HoldsAlready(p: UrlParts)
      requires fieldData.Length == UF_MAX && OuterFound(p) && p.authority == ""
      ensures Holds(Whole(p, NO_HOST))
    {
      var w := Whole(p, NO_HOST);
      forall f | 0 <= f < UF_MAX ensures (f in fieldSet <==> Has(w, f)) && (Has(w, f) ==> fieldData[f] == SliceOf(w, f)) {
        assert Found(f, OuterSlice(p, f), 0);
      }
      hide Has, SliceOf;
    }
  }

  lemma NoHostRead()
    ensures ReadHost(false, "") == Some(NO_HOST) && !HostWhole(NO_HOST) && !HasAt("")
  {}

  lemma NotAccepted(connect: bool, mem: string, buflen: nat)
    requires buflen <= |mem| && ReadUrl(connect, mem[..buflen]) == None
    ensures Accepted(connect, mem, buflen) == None
  {}

  lemma UrlRead(connect: bool, t: string, p: UrlParts, s: State)
    requires UrlSoFar(connect, t, |t|, p, s)
    ensures ReadUrl(connect, t) == Some(p)
  {
    assert t[..|t|] == t;
  }

  lemma HasPort(w: Whole)
    ensures UF_PORT in FieldSet(w) <==> Has(w, UF_PORT)
  {}

  lemma AuthorityIn(connect: bool, mem: string, buflen: nat)
    requires buflen <= |mem| && ReadUrl(connect, mem[..buflen]).Some?
    ensures var p := ReadUrl(connect, mem[..buflen]).value; var s := OuterSlice(p, UF_HOST);
      EndOfSlice(s) <= buflen && mem[s.off..EndOfSlice(s)] == p.authority
  {
    var t := mem[..buflen];
    var p := ReadUrl(connect, t).value;
    ReadSound(connect, t);
    OuterContent(p, UF_HOST);
    var s := OuterSlice(p, UF_HOST);
    assert t[s.off..EndOfSlice(s)] == mem[s.off..EndOfSlice(s)];
  }

  function PortOf(w: Whole, mem: string): nat { if Has(w, UF_PORT) then PortNumber(w, mem) else 0 }

  lemma NoUrlSoFar(connect: bool, t: string)
    ensures UrlSoFar(connect, t, 0, NO_PARTS, StartState(connect))
  {
    NoPartsFit(connect);
    assert t[..0] == "";
  }

  lemma ReadUrlNext(connect: bool, t: string, n: nat)
    requires n < |t| && ReadUrl(connect, t[..n]).Some?
    ensures ReadUrl(connect, t[..n + 1]) == ReadOne(connect, ReadUrl(connect, t[..n]).value, t[n])
  {
    assert t[..n + 1][..n] == t[..n];
  }

  lemma {:induction false} NoUrlAfter(connect: bool, t: string, n: nat)
    requires n <= |t| && ReadUrl(connect, t[..n]) == None
    ensures ReadUrl(connect, t) == None
    decreases |t| - n
  {
    if n < |t| {
      assert t[..n + 1][..n] == t[..n];
      NoUrlAfter(connect, t, n + 1);
    } else {
      assert t[..n] == t;
    }
  }

  lemma UrlOneMore(connect: bool, t: string, n: nat, p: UrlParts, s: State)
    requires n < |t| && UrlSoFar(connect, t, n, p, s)
    ensures var next := ParseUrlChar(s, t[n]);
      && (next.Dead? ==> ReadUrl(connect, t) == None)
      && (!next.Dead? ==>
            UrlSoFar(connect, t, n + 1, Grow(p, next, t[n]), next)
            && (HasAt(Grow(p, next, t[n]).authority) <==> HasAt(p.authority) || next.ReqServerWithAt?))
  {
    var next := ParseUrlChar(s, t[n]);
    hide WellFormed, Render, ParseUrlChar, StateOf, ReadUrl;
    ReadUrlNext(connect, t, n);
    OneSound(connect, p, t[n]);
    GrowKeeps(connect, p, t[n]);
    if next.Dead? {
      NoUrlAfter(connect, t, n + 1);
    } else {
      AtFound(connect, p, t[n]);
    }
  }

  lemma AtFound(connect: bool, p: UrlParts, ch: char)
    requires WellFormed(connect, p)
    ensures var s := ParseUrlChar(StateOf(connect, p), ch);
      !s.Dead? ==> (HasAt(Grow(p, s, ch).authority) <==> HasAt(p.authority) || s.ReqServerWithAt?)
  {
    var s := ParseUrlChar(StateOf(connect, p), ch);
    NoneBefore(connect, p, ch);
    WaysIn(StateOf(connect, p), ch);
    hide ParseUrlChar, StateOf, WellFormed, NotBefore;
  }

  // ---------------------------------------------------------------- the port

  /** The digits that `strtoul` reads: it goes on until something else comes, or the end of the
      memory, where the terminator is. */
  function Leading(s: string): (d: string)
    ensures Decimal.AllDigits(d) && |d| <= |s| && d == s[..|d|] && (|d| < |s| ==> !Decimal.IsDigit(s[|d|]))
  {
    if s == "" || !Decimal.IsDigit(s[0]) then "" else [s[0]] + Leading(s[1..])
  }

  function StrToUl(s: string): nat {
    var v := Decimal.Value(Leading(s));
    if v > U64_MAX then U64_MAX else v
  }

  /** The URL in its parts if it is accepted; `mem` goes on behind it. */
  function Accepted(connect: bool, mem: string, buflen: nat): Option<Whole>
    requires buflen <= |mem|
  {
    var w := TakenApart(connect, mem[..buflen]);
    if w == None then None
    else if connect && FieldSet(w.value) != {UF_HOST, UF_PORT} then None
    else if Has(w.value, UF_PORT) && PortNumber(w.value, mem) > 0xffff then None
    else w
  }

  function PortNumber(w: Whole, mem: string): nat {
    var off := SliceOf(w, UF_PORT).off;
    if off <= |mem| then StrToUl(mem[off..]) else 0
  }

  /** The automaton is in state `s` when it has read `p` in the first `n` characters. */
  ghost predicate UrlSoFar(connect: bool, t: string, n: nat, p: UrlParts, s: State) {
    && n <= |t| && ReadUrl(connect, t[..n]) == Some(p) && WellFormed(connect, p) && p.slashes <= 3
    && s == StateOf(connect, p) && |Render(p)| == n
  }

  lemma OuterInside(p: UrlParts, f: nat)
    requires p.slashes <= 3
    ensures OuterSlice(p, f).len <= |Render(p)|
  {
    RenderedLength(p);
  }

  /** An authority is not read beyond a character that is refused. */
  lemma {:induction false} NoneAfter(found: bool, t: string, n: nat)
    requires n <= |t| && ReadHost(found, t[..n]) == None
    ensures ReadHost(found, t) == None
    decreases |t| - n
  {
    if n < |t| {
      assert t[..n + 1][..n] == t[..n];
      NoneAfter(found, t, n + 1);
    } else {
      assert t[..n] == t;
    }
  }

  lemma NothingSoFar(found: bool, a: string)
    ensures HostSoFar(found, a, 0, NO_HOST, StartHost(found))
  {
    NoHostFits(found);
    assert a[..0] == "";
  }

  lemma ReadHostNext(found: bool, a: string, n: nat)
    requires n < |a| && ReadHost(found, a[..n]).Some?
    ensures ReadHost(found, a[..n + 1]) == ReadHostOne(found, ReadHost(found, a[..n]).value, a[n])
  {
    assert a[..n + 1][..n] == a[..n];
  }

  lemma HostOneMore(found: bool, a: string, n: nat, h: HostParts, s: HostState)
    requires n < |a| && HostSoFar(found, a, n, h, s)
    ensures var newS := ParseHostChar(s, a[n]);
      if newS.HostDead? then ReadHost(found, a) == None
      else HostSoFar(found, a, n + 1, GrowHost(h, newS, a[n]), newS)
  {
    hide ParseHostChar, HostStateOf, GrowHost, HostFits, RenderHost, ReadHost;
    ReadHostNext(found, a, n);
    GrowHostKeeps(found, h, a[n]);
    HostOneSound(found, h, a[n]);
    if ParseHostChar(s, a[n]).HostDead? { NoneAfter(found, a, n + 1); }
  }

  /** The states in which an authority may end. */
  lemma WholeAtEnd(found: bool, a: string, h: HostParts, s: HostState)
    requires HostSoFar(found, a, |a|, h, s)
    ensures HostWhole(h) <==> s.Host? || s.HostV6End? || s.HostPort?
    ensures ReadHost(found, a) == Some(h) && !s.HostDead?
  {
    assert a[..|a|] == a;
    hide IsUserinfo, IsHostName, IsPort;
  }

  // ---------------------------------------------------------------- the port is the one in the URL

  lemma {:induction false} LeadingOn(d: string, rest: string)
    requires Decimal.AllDigits(d)
    ensures Leading(d + rest) == d + Leading(rest)
  {
    hide Leading;
    if d == "" {
      assert d + rest == rest && "" + Leading(rest) == Leading(rest);
    } else {
      assert (d + rest)[1..] == d[1..] + rest && (d + rest)[0] == d[0];
      LeadingCons(d + rest);
      LeadingOn(d[1..], rest);
      assert [d[0]] + (d[1..] + Leading(rest)) == d + Leading(rest);
    }
  }

  lemma LeadingCons(s: string)
    requires s != "" && Decimal.IsDigit(s[0])
    ensures Leading(s) == [s[0]] + Leading(s[1..])
  {
  }

  /** Nothing that follows the authority starts with a digit. */
  lemma TailStarts(connect: bool, p: UrlParts)
    requires WellFormed(connect, p) && Tail(p) != ""
    ensures !Decimal.IsDigit(Tail(p)[0])
  {
    if p.path != "" {
      assert Tail(p)[0] == p.path[0];
    } else {
      assert p.mark && Tail(p)[0] == '?';
    }
  }

  /** Digits that follow the URL in the memory, if its port comes last. */
  function Stray(w: Whole, mem: string, buflen: nat): (r: string)
    requires buflen <= |mem|
    ensures Decimal.AllDigits(r)
  {
    if EndOfSlice(SliceOf(w, UF_PORT)) == buflen then Leading(mem[buflen..]) else ""
  }

  lemma StraysStop(connect: bool, w: Whole, mem: string, buflen: nat)
    requires buflen <= |mem| && MakesUp(w, mem[..buflen]) && WellFormed(connect, w.parts)
    ensures PathAt(w.parts) <= buflen
    ensures Leading(mem[PathAt(w.parts)..]) == if PathAt(w.parts) == buflen then Leading(mem[buflen..]) else ""
  {
    var t, end := mem[..buflen], PathAt(w.parts);
    assert |Front(w.parts)| == end && t == Front(w.parts) + Tail(w.parts);
    hide MakesUp, Render, Front, Tail, WellFormed;
    if end < buflen {
      TailStarts(connect, w.parts);
      assert mem[end..][0] == t[end] == Tail(w.parts)[0];
    }
  }

  lemma PortEnds(w: Whole, t: string)
    requires MakesUp(w, t)
    ensures EndOfSlice(SliceOf(w, UF_PORT)) == PathAt(w.parts)
  {
    LengthsAgree(w, t);
    hide MakesUp;
  }

  lemma PortRead(connect: bool, mem: string, buflen: nat)
    requires buflen <= |mem| && TakenApart(connect, mem[..buflen]).Some?
    ensures var w := TakenApart(connect, mem[..buflen]).value;
      && SliceOf(w, UF_PORT).off <= |mem| && Decimal.AllDigits(w.host.port)
      && Leading(mem[SliceOf(w, UF_PORT).off..]) == w.host.port + Stray(w, mem, buflen)
  {
    var t := mem[..buflen];
    PartsMakeUp(connect, t);
    PartsFit(connect, t);
    hide TakenApart, MakesUp, SliceOf, WellFormed, PathAt, Leading;
    var w := TakenApart(connect, t).value;
    var s := SliceOf(w, UF_PORT);
    PortEnds(w, t);
    Contents(connect, t, UF_PORT);
    StraysStop(connect, w, mem, buflen);
    Continues(mem, buflen, s.off, EndOfSlice(s));
    LeadingOn(w.host.port, mem[EndOfSlice(s)..]);
  }

  lemma Continues(mem: string, n: nat, from: nat, to: nat)
    requires from <= to <= n <= |mem|
    ensures mem[from..] == mem[..n][from..to] + mem[to..]
  {}

  lemma PartsFit(connect: bool, t: string)
    requires TakenApart(connect, t).Some?
    ensures var w := TakenApart(connect, t).value; WellFormed(connect, w.parts) && Decimal.AllDigits(w.host.port)
  {
    ReadSound(connect, t);
    var p := ReadUrl(connect, t).value;
    hide WellFormed, Render, RenderHost, ReadUrl, ReadHost;
    ReadHostSound(HasAt(p.authority), p.authority);
    var h := TakenApart(connect, t).value.host;
    assert forall i :: 0 <= i < |h.port| ==> IsNum(h.port[i]);
  }

  lemma {:induction false} ValueOfJoined(a: string, b: string)
    requires Decimal.AllDigits(a) && Decimal.AllDigits(b)
    ensures Decimal.AllDigits(a + b)
    ensures Decimal.Value(a + b) == Decimal.Value(a) * Decimal.Pow10(|b|) + Decimal.Value(b)
    decreases |b|
  {
    if b == "" {
      assert a + b == a;
    } else {
      var less, d := b[..|b| - 1], Decimal.DigitValue(b[|b| - 1]);
      assert (a + b)[..|a + b| - 1] == a + less;
      ValueOfJoined(a, less);
      Tenfold(Decimal.Value(a), Decimal.Pow10(|less|), Decimal.Value(less), d);
    }
  }

  lemma Tenfold(v: int, q: int, x: int, d: int)
    ensures (v * q + x) * 10 + d == v * (10 * q) + (x * 10 + d)
  {}

  /** The port is the decimal value of its field exactly if no digits follow the URL in the memory
      behind it, or they make no difference because there are zeros only. */
  lemma PortExactly(connect: bool, mem: string, buflen: nat)
    requires buflen <= |mem| && Accepted(connect, mem, buflen).Some?
    ensures var w := Accepted(connect, mem, buflen).value; var field := w.host.port; var stray := Stray(w, mem, buflen);
      Has(w, UF_PORT) ==>
        Decimal.AllDigits(field) && PortOf(w, mem) <= 0xffff
        && (PortOf(w, mem) == Decimal.Value(field) <==>
              stray == "" || (Decimal.Value(field) == 0 && Decimal.Value(stray) == 0))
  {
    hide TakenApart, SliceOf, Stray, FieldSet, Leading, Decimal.Value, Decimal.Pow10, Decimal.AllDigits;
    var w := Accepted(connect, mem, buflen).value;
    var field, stray := w.host.port, Stray(w, mem, buflen);
    PortRead(connect, mem, buflen);
    if stray == "" {
      assert field + stray == field;
    } else if Has(w, UF_PORT) {
      ValueOfJoined(field, stray);
      Decimal.Pow10Grows(|stray|);
      Larger(Decimal.Value(field), Decimal.Pow10(|stray|), Decimal.Value(stray));
    }
  }

  lemma Larger(v: nat, q: nat, x: nat)
    requires q >= 10
    ensures v * q + x == v <==> v == 0 && x == 0
  {}

  // ---------------------------------------------------------------- a port that is not the URL's

  const WITNESS: Whole :=
    Whole(UrlParts("http", 3, "h:80", "", false, "", 0, ""), HostParts("", false, false, "h", false, true, "80"))

  lemma WitnessFits()
    ensures WellFormed(false, WITNESS.parts) && HostMeets(WITNESS)
  {}

  lemma WitnessMakesUp()
    ensures MakesUp(WITNESS, "http://h:80")
  {
    assert Hashes(0) == "" && Colons(3) == "://";
    assert Tail(WITNESS.parts) == "" && Front(WITNESS.parts) == "http://h:80";
    assert HostFront(WITNESS.host) == "" && HostBack(WITNESS.host) == "h:80";
  }

  /** "http://h:80" in front of "12" in memory: the port is 8012. */
  lemma StrayDigits()
    ensures Accepted(false, "http://h:8012", 11) == Some(WITNESS) && PortOf(WITNESS, "http://h:8012") == 8012
    ensures Decimal.AllDigits(WITNESS.host.port) && Decimal.Value(WITNESS.host.port) == 80
  {
    var mem := "http://h:8012";
    assert mem[..11] == "http://h:80";
    WitnessFits();
    WitnessMakesUp();
    TakenApartExactly(false, mem[..11], WITNESS);
    assert Has(WITNESS, UF_PORT) && SliceOf(WITNESS, UF_PORT) == Slice(9, 2);
    assert mem[9..] == "8012";
    DigitsOf();
  }

  lemma DigitsOf()
    ensures StrToUl("8012") == 8012 && Decimal.Value("80") == 80
  {
    LeadingOn("8012", "");
    assert "8012" + "" == "8012" && Leading("") == "";
    assert "8012"[..3] == "801" && "801"[..2] == "80" && "80"[..1] == "8" && "8"[..0] == "";
    assert Decimal.Value("8") == 8;
    assert Decimal.Value("80") == 80;
    assert Decimal.Value("801") == 801;
  }
}
