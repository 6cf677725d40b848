/** The hand-written multipart decoder of api/api_upload.cc: `strip` and `decodeMsg`. */
module Multipart {
  import opened Options

  // ---------------------------------------------------------------- std::search

  predicate Starts(s: string, pat: string) { |pat| <= |s| && s[..|pat|] == pat }

  predicate Occurs(pat: string, s: string) { exists j :: 0 <= j <= |s| && Starts(s[j..], pat) }

  /** The first place of `pat` in `s`, or the end of `s`. */
  function Search(s: string, pat: string): (i: nat)
    requires pat != ""
    ensures i <= |s|
    ensures i < |s| ==> Starts(s[i..], pat)
    ensures forall j :: 0 <= j < i ==> !Starts(s[j..], pat)
  {
    if s == "" || Starts(s, pat) then 0
    else
      var i := Search(s[1..], pat) + 1;
      assert forall j :: 0 < j <= |s| ==> s[j..] == s[1..][j - 1..];
      i
  }

  lemma SearchIs(s: string, pat: string, i: nat)
    requires pat != "" && i <= |s|
    requires forall j :: 0 <= j < i ==> !Starts(s[j..], pat)
    requires i < |s| ==> Starts(s[i..], pat)
    ensures Search(s, pat) == i
  {
    var k := Search(s, pat);
    assert k < |s| ==> Starts(s[k..], pat);
  }

  // ---------------------------------------------------------------- strip

  predicate IsLineEnd(c: char) { c == '\r' || c == '\n' }

  predicate LineEnds(s: string, from: int, to: int)
    requires 0 <= from && to <= |s|
  {
    forall k :: from <= k < to ==> IsLineEnd(s[k])
  }

  predicate OnlyLineEnds(s: string) { LineEnds(s, 0, |s|) }

  function Lead(s: string): (n: nat)
    ensures n <= |s| && LineEnds(s, 0, n) && (n < |s| ==> !IsLineEnd(s[n]))
  {
    if s == "" || !IsLineEnd(s[0]) then 0
    else
      var n := Lead(s[1..]) + 1;
      assert forall k :: 0 < k < n ==> s[k] == s[1..][k - 1];
      n
  }

  function Trail(s: string): (n: nat)
    ensures n <= |s| && LineEnds(s, |s| - n, |s|) && (n < |s| ==> !IsLineEnd(s[|s| - n - 1]))
  {
    if s == "" || !IsLineEnd(s[|s| - 1]) then 0
    else
      var n := Trail(s[..|s| - 1]) + 1;
      assert forall k :: |s| - n <= k < |s| - 1 ==> s[k] == s[..|s| - 1][k];
      n
  }

  /** None is a range that ends before it begins: the two scans have passed each other. */
  function Stripped(s: string): Option<string> {
    if Lead(s) + Trail(s) > |s| then None else Some(s[Lead(s)..|s| - Trail(s)])
  }

  method Strip(s: string) returns (r: Option<string>)
    ensures r == Stripped(s)
  {
    var it1 := 0;
    while it1 != |s| && IsLineEnd(s[it1])
      invariant 0 <= it1 <= |s| && LineEnds(s, 0, it1)
      decreases |s| - it1
    {
      it1 := it1 + 1;
    }
    var it2 := |s|;
    while it2 != 0 && IsLineEnd(s[it2 - 1])
      invariant 0 <= it2 <= |s| && LineEnds(s, it2, |s|)
      decreases it2
    {
      it2 := it2 - 1;
    }
    LeadIs(s, it1);
    TrailIs(s, |s| - it2);
    r := if it1 > it2 then None else Some(s[it1..it2]);
  }

  lemma LeadIs(s: string, n: nat)
    requires n <= |s| && LineEnds(s, 0, n) && (n < |s| ==> !IsLineEnd(s[n]))
    ensures Lead(s) == n
  {
    var m := Lead(s);
  }

  lemma TrailIs(s: string, n: nat)
    requires n <= |s| && LineEnds(s, |s| - n, |s|) && (n < |s| ==> !IsLineEnd(s[|s| - n - 1]))
    ensures Trail(s) == n
  {
    var m := Trail(s);
  }

  /** Line ends around a text are lost, and so are its own at both ends; a text with nothing else in
      it cannot be taken out. */
  lemma StripFramed(a: string, v: string, b: string)
    requires OnlyLineEnds(a) && OnlyLineEnds(b) && a != ""
    ensures Stripped(a + v + b) == if OnlyLineEnds(v) then None else Stripped(v)
    ensures Stripped(v) == None <==> v != "" && OnlyLineEnds(v)
  {
    hide Lead, Trail;
    var whole, l, t := a + v + b, Lead(v), Trail(v);
    if OnlyLineEnds(v) {
      AllLost(whole);
      AllLost(v);
    } else {
      LeadIs(whole, |a| + l);
      TrailIs(whole, |b| + t);
      assert whole[|a| + l..|whole| - (|b| + t)] == v[l..|v| - t];
    }
  }

  lemma AllLost(s: string)
    requires OnlyLineEnds(s)
    ensures Lead(s) == |s| && Trail(s) == |s|
    ensures Stripped(s) == if s == "" then Some("") else None
  {
    LeadIs(s, |s|);
    TrailIs(s, |s|);
  }

  // ---------------------------------------------------------------- decodeMsg

  const LEFT_FLAG: string := "name=\""
  const RIGHT_FLAG: string := "\""
  const FIELD_CNT: nat := 6

  /** `Undefined`: a string is made from iterators in the wrong order. */
  datatype Outcome = Decoded(code: int, fields: map<string, string>) | Undefined

  datatype Segment = Missing | Crossed | Field(name: string, value: string)

  /** What one stretch between two delimiters gives. */
  function ReadSegment(seg: string): Segment {
    var left := Search(seg, LEFT_FLAG);
    if left == |seg| then Missing else ReadNamed(seg[left + |LEFT_FLAG|..])
  }

  function ReadNamed(named: string): Segment {
    var right := Search(named, RIGHT_FLAG);
    if right == |named| then Missing
    else if right + 1 == |named| then Crossed
    else
      var value := Stripped(named[right + 1..|named| - 1]);
      if value == None then Crossed else Field(named[..right], value.value)
  }

  function Ended(count: nat, fields: map<string, string>): Outcome {
    Decoded(if count == FIELD_CNT then 0 else -1, fields)
  }

  /** The loop, on the text that is left, which is empty or starts with a delimiter. */
  function Scan(rest: string, split: string, count: nat, fields: map<string, string>): Outcome
    requires split != "" && (rest == "" || Starts(rest, split))
    decreases |rest|
  {
    if rest == "" then Ended(count, fields)
    else
      var after := rest[|split|..];
      var next := Search(after, split);
      if next == |after| then Ended(count, fields)
      else
        var seg := ReadSegment(after[..next]);
        if seg == Missing then Ended(count, fields)
        else if seg == Crossed then Undefined
        else Scan(after[next..], split, count + 1, fields[seg.name := seg.value])
  }

  function Decoding(body: string, split: string): Outcome
    requires split != ""
  {
    Scan(body[Search(body, split)..], split, 0, map[])
  }

  lemma DropDrop(s: string, i: nat, j: nat)
    requires i + j <= |s|
    ensures s[i..][j..] == s[i + j..]
  {}

  lemma SliceOfSlice(s: string, from: nat, to: nat, i: nat, j: nat)
    requires from + i <= from + j <= to <= |s|
    ensures s[from..to][i..j] == s[from + i..from + j]
  {
    var a, b := s[from..to][i..j], s[from + i..from + j];
    assert |a| == |b| && forall k :: 0 <= k < |a| ==> a[k] == b[k];
  }

  lemma ScanStep(rest: string, split: string, count: nat, fields: map<string, string>)
    requires split != "" && Starts(rest, split) && Search(rest[|split|..], split) < |rest| - |split|
    ensures var after := rest[|split|..]; var next := Search(after, split);
      Starts(after[next..], split)
      && Scan(rest, split, count, fields) ==
         match ReadSegment(after[..next])
         case Missing => Ended(count, fields)
         case Crossed => Undefined
         case Field(name, value) => Scan(after[next..], split, count + 1, fields[name := value])
  {
    hide ReadSegment, Search;
  }

  lemma StartsFits(s: string, pat: string)
    requires Starts(s, pat)
    ensures |pat| <= |s|
  {}

  lemma ScanStop(rest: string, split: string, count: nat, fields: map<string, string>)
    requires split != "" && Starts(rest, split) && Search(rest[|split|..], split) == |rest| - |split|
    ensures Scan(rest, split, count, fields) == Ended(count, fields)
  {
    hide ReadSegment, Search;
  }

  lemma Rounds(body: string, split: string, cur: nat, found: nat)
    requires cur + |split| + found <= |body|
    ensures var after := cur + |split|;
      body[cur..][|split|..] == body[after..] && body[after..][..found] == body[after..after + found]
      && body[after..][found..] == body[after + found..]
  {
    DropDrop(body, cur, |split|);
    DropDrop(body, cur + |split|, found);
    SliceOfSlice(body, cur + |split|, |body|, 0, found);
    assert body[cur + |split|..] == body[cur + |split|..|body|];
  }

  lemma SearchFits(s: string, pat: string)
    requires pat != ""
    ensures Search(s, pat) == |s| || Search(s, pat) + |pat| <= |s|
  {}

  lemma SegmentAt(body: string, from: nat, next: nat)
    requires from <= next <= |body|
    ensures var left := from + Search(body[from..next], LEFT_FLAG);
      && (left == next ==> ReadSegment(body[from..next]) == Missing)
      && (left < next ==>
            left + |LEFT_FLAG| <= next
            && ReadSegment(body[from..next]) == ReadNamed(body[left + |LEFT_FLAG|..next]))
  {
    hide ReadNamed, Search;
    var seg := body[from..next];
    var left := Search(seg, LEFT_FLAG);
    SearchFits(seg, LEFT_FLAG);
    hide Starts;
    if left < |seg| {
      SliceOfSlice(body, from, next, left + |LEFT_FLAG|, |seg|);
      assert seg[left + |LEFT_FLAG|..] == seg[left + |LEFT_FLAG|..|seg|];
    }
  }

  lemma NamedAt(body: string, open: nat, next: nat)
    requires open <= next <= |body|
    ensures var right := open + Search(body[open..next], RIGHT_FLAG);
      ReadNamed(body[open..next]) ==
        if right == next then Missing
        else if right + 1 > next - 1 || Stripped(body[right + 1..next - 1]) == None then Crossed
        else Field(body[open..right], Stripped(body[right + 1..next - 1]).value)
  {
    hide Stripped, Search, Starts;
    var named := body[open..next];
    var right := Search(named, RIGHT_FLAG);
    if right + 1 < |named| {
      SliceOfSlice(body, open, next, right + 1, |named| - 1);
      SliceOfSlice(body, open, next, 0, right);
    }
  }

  /** decodeMsg, with the iterators as positions in the body. */
  method DecodeMsg(body: string, split: string) returns (r: Outcome)
    requires split != ""
    ensures r == Decoding(body, split)
  {
    hide Stripped, ReadSegment, ReadNamed, Scan, Search, Starts;
    var fields: map<string, string> := map[];
    var parsedCnt := 0;
    var cur := Search(body, split);
    while cur != |body|
      invariant 0 <= cur <= |body| && (cur < |body| ==> Starts(body[cur..], split))
      invariant Scan(body[cur..], split, parsedCnt, fields) == Decoding(body, split)
      decreases |body| - cur
    {
      ghost var rest := body[cur..];
      StartsFits(rest, split);
      cur := cur + |split|;
      var next := cur + Search(body[cur..], split);
      Rounds(body, split, |body| - |rest|, next - cur);
      if next == |body| {
        ScanStop(rest, split, parsedCnt, fields);
        return Ended(parsedCnt, fields);
      }
      ScanStep(rest, split, parsedCnt, fields);
      SegmentAt(body, cur, next);
      cur := cur + Search(body[cur..next], LEFT_FLAG);
      if cur == next { return Ended(parsedCnt, fields); }
      cur := cur + |LEFT_FLAG|;
      NamedAt(body, cur, next);
      var next2 := cur + Search(body[cur..next], RIGHT_FLAG);
      if next2 == next { return Ended(parsedCnt, fields); }
      var field := body[cur..next2];
      cur := next2 + |RIGHT_FLAG|;
      if cur > next - 1 { return Undefined; }
      var value := Strip(body[cur..next - 1]);
      if value == None { return Undefined; }
      cur := next;
      fields := fields[field := value.value];
      parsedCnt := parsedCnt + 1;
    }
    ScanDone(split, parsedCnt, fields);
    assert body[cur..] == "";
    return Ended(parsedCnt, fields);
  }

  lemma ScanDone(split: string, count: nat, fields: map<string, string>)
    requires split != ""
    ensures Scan("", split, count, fields) == Ended(count, fields)
  {}
}
