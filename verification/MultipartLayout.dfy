/** The decoder of api/api_upload.cc on the standard layout of multipart/form-data: section 5.1.1 of
    RFC 2046 and section 4.1 of RFC 7578. */
module MultipartLayout {
  import opened Options
  import opened Multipart

  datatype Pair = Pair(name: string, value: string)

  const HEADER: string := "\r\nContent-Disposition: form-data; name=\""
  const BLANK_LINE: string := "\r\n\r\n"
  const CRLF: string := "\r\n"

  /** A part, from the end of its delimiter line to the next delimiter. */
  function Part(p: Pair): string { HEADER + p.name + RIGHT_FLAG + (BLANK_LINE + p.value + CRLF) }

  function Body(parts: seq<Pair>, boundary: string, epilogue: string): string
    decreases |parts|, 1
  {
    "--" + boundary + After(parts, boundary, epilogue)
  }

  /** What follows a delimiter. */
  function After(parts: seq<Pair>, boundary: string, epilogue: string): string
    decreases |parts|, 0
  {
    if parts == [] then "--" + epilogue else Part(parts[0]) + Body(parts[1..], boundary, epilogue)
  }

  /** What the decoder is given to split at. */
  function Split(boundary: string): string { "-" + boundary }

  predicate NoLineEnd(s: string) { forall c :: c in s ==> !IsLineEnd(c) }

  ghost predicate FitsPart(p: Pair, split: string) { '"' !in p.name && !Occurs(split, Part(p)) }

  ghost predicate Fits(parts: seq<Pair>, split: string) { forall p :: p in parts ==> FitsPart(p, split) }

  // ---------------------------------------------------------------- where the delimiters are found

  predicate Dashes(s: string) { forall c :: c in s ==> c == '-' }

  /** With a boundary of dashes only, the first place is one dash before the delimiter's second, and
      one dash more is left over behind it. */
  function Before(split: string): string { if Dashes(split) then "" else "-" }
  function Behind(split: string): string { if Dashes(split) then "-" else "" }

  lemma {:induction false} ShiftedDashes(split: string, more: string, i: nat)
    requires split != "" && split[0] == '-' && i < |split| && Starts("-" + split + more, split)
    ensures split[i] == '-'
  {
    if i > 0 {
      ShiftedDashes(split, more, i - 1);
      var s := "-" + split + more;
      assert s[..|split|][i] == s[i] == split[i - 1];
    }
  }

  lemma NotEarlier(split: string, more: string)
    requires split != "" && split[0] == '-' && !Dashes(split)
    ensures !Starts("-" + split + more, split)
  {
    if Starts("-" + split + more, split) {
      forall c | c in split ensures c == '-' {
        var i :| 0 <= i < |split| && split[i] == c;
        ShiftedDashes(split, more, i);
      }
      assert false;
    }
  }

  lemma DashesSwap(split: string)
    requires Dashes(split)
    ensures "-" + split == split + "-"
  {
    forall i | 0 <= i < |split| ensures split[i] == '-' { assert split[i] in split; }
    assert forall i :: 0 <= i <= |split| ==> ("-" + split)[i] == '-' && (split + "-")[i] == '-';
  }

  /** "-" and the delimiter, as the decoder divides them. */
  lemma Divides(split: string)
    ensures "-" + split == Before(split) + split + Behind(split)
  {
    if Dashes(split) { DashesSwap(split); }
  }

  ghost predicate Framed(text: string, split: string) {
    && |text| >= 2 && text[0] == '\r' && text[|text| - 1] == '\n' && !Occurs(split, text)
    && |split| >= 2 && split[0] == '-' && NoLineEnd(split)
  }

  lemma Differs(s: string, pat: string, i: nat)
    requires i < |pat| && (i < |s| ==> s[i] != pat[i])
    ensures !Starts(s, pat)
  {
    assert i < |s| && |pat| <= |s| ==> s[..|pat|][i] == s[i];
  }

  /** No delimiter starts inside a part. */
  lemma NotInside(text: string, split: string, more: string, k: nat)
    requires Framed(text, split) && k < |text|
    ensures !Starts((text + more)[k..], split)
  {
    var s := (text + more)[k..];
    if k + |split| <= |text| {
      assert !Starts(text[k..], split);
      assert text[k..][..|split|] == s[..|split|];
    } else {
      assert split[|text| - 1 - k] in split;
      Differs(s, split, |text| - 1 - k);
    }
  }

  /** After a delimiter and a part, the next delimiter is found where it is. */
  lemma NextDelimiter(text: string, split: string, more: string)
    requires Framed(text, split)
    ensures Search(Behind(split) + text + Before(split) + (split + more), split) == |Behind(split) + text + Before(split)|
  {
    var a, b := Behind(split), Before(split);
    var rest := b + (split + more);
    var s := a + text + rest;
    assert a + text + b + (split + more) == s;
    forall j | 0 <= j < |a + text + b| ensures !Starts(s[j..], split) {
      if j < |a| {
        assert split[1] in split && s[1] == text[0];
        Differs(s, split, 1);
        assert s[0..] == s;
      } else if j < |a| + |text| {
        assert s[j..] == (text + rest)[j - |a|..];
        NotInside(text, split, rest, j - |a|);
      } else {
        assert s[j..] == "-" + split + more;
        NotEarlier(split, more);
      }
    }
    assert s[|a + text + b|..] == split + more;
    SearchIs(s, split, |a + text + b|);
  }

  // ---------------------------------------------------------------- one part

  predicate OnlyLast(text: string, c: char) { forall i :: 0 <= i < |text| - 1 ==> text[i] != c }

  lemma NotBefore(text: string, flag: string, more: string, j: nat)
    requires 0 < |flag| && j + |flag| < |text| && OnlyLast(text, flag[|flag| - 1])
    ensures !Starts((text + more)[j..], flag)
  {
    assert (text + more)[j..][|flag| - 1] == text[j + |flag| - 1];
    Differs((text + more)[j..], flag, |flag| - 1);
  }

  lemma DropOfConcat(a: string, b: string, n: nat)
    requires n <= |a|
    ensures (a + b)[n..] == a[n..] + b
  {}

  lemma StartsConcat(a: string, b: string)
    ensures Starts(a + b, a)
  {}

  /** A flag at the end of a text, whose last character is nowhere else in the text. */
  lemma FlagAtEnd(text: string, flag: string, more: string)
    requires 0 < |flag| <= |text| && text[|text| - |flag|..] == flag && OnlyLast(text, flag[|flag| - 1])
    ensures Search(text + more, flag) == |text| - |flag|
  {
    hide Starts, OnlyLast, Search;
    var s, n := text + more, |text| - |flag|;
    DropOfConcat(text, more, n);
    StartsConcat(flag, more);
    forall j | 0 <= j < n ensures !Starts(s[j..], flag) {
      NotBefore(text, flag, more, j);
    }
    SearchIs(s, flag, n);
  }

  lemma FlagFound(front: string, named: string)
    requires front == "" || front == "-"
    ensures Search(front + HEADER + named, LEFT_FLAG) == |front| + |HEADER| - |LEFT_FLAG|
  {
    hide Search, Starts;
    var text := front + HEADER;
    assert text[|text| - |LEFT_FLAG|..] == LEFT_FLAG;
    assert OnlyLast(HEADER, '"');
    assert OnlyLast(text, '"');
    FlagAtEnd(text, LEFT_FLAG, named);
  }

  lemma NameFound(name: string, raw: string)
    requires '"' !in name
    ensures Search(name + RIGHT_FLAG + raw, RIGHT_FLAG) == |name|
  {
    var s := name + RIGHT_FLAG + raw;
    forall j | 0 <= j < |name| ensures !Starts(s[j..], RIGHT_FLAG) {
      assert s[j] == name[j];
      Differs(s[j..], RIGHT_FLAG, 0);
    }
    assert s[|name|..][..1] == RIGHT_FLAG;
    SearchIs(s, RIGHT_FLAG, |name|);
  }

  /** The value without the line ends at its own two ends. */
  function Trimmed(v: string): string
    requires !OnlyLineEnds(v)
  {
    assert Stripped(v) != None by { StripFramed("\n", v, ""); }
    Stripped(v).value
  }

  function Reading(p: Pair): Segment {
    if OnlyLineEnds(p.value) then Crossed else Field(p.name, Trimmed(p.value))
  }

  /** The text that `strip` is given. */
  function End(split: string): string { if Dashes(split) then "\r" else CRLF }

  lemma NamedRead(p: Pair, split: string)
    requires '"' !in p.name
    ensures ReadNamed(p.name + RIGHT_FLAG + (BLANK_LINE + p.value + CRLF + Before(split))) == Reading(p)
  {
    hide Search, Stripped;
    var raw := BLANK_LINE + p.value + CRLF + Before(split);
    var named := p.name + RIGHT_FLAG + raw;
    NameFound(p.name, raw);
    assert named[..|p.name|] == p.name;
    assert named[|p.name| + 1..|named| - 1] == raw[..|raw| - 1];
    assert raw[..|raw| - 1] == BLANK_LINE + p.value + End(split);
    StripFramed(BLANK_LINE, p.value, End(split));
  }

  lemma Concat3(a: string, b: string, c: string)
    ensures a + (b + c) == a + b + c
  {}

  lemma PartIs(p: Pair)
    ensures Part(p) == HEADER + p.name + RIGHT_FLAG + (BLANK_LINE + p.value + CRLF)
  {}

  lemma PartSplits(p: Pair, front: string, before: string)
    ensures front + Part(p) + before ==
            front + HEADER + (p.name + RIGHT_FLAG + (BLANK_LINE + p.value + CRLF + before))
  {
    hide *;
    var body := BLANK_LINE + p.value + CRLF;
    PartIs(p);
    Concat3(front, Part(p), before);
    Concat3(HEADER + p.name + RIGHT_FLAG, body, before);
    Concat3(HEADER + p.name, RIGHT_FLAG, body + before);
    Concat3(HEADER, p.name, RIGHT_FLAG + (body + before));
    Concat3(p.name, RIGHT_FLAG, body + before);
    Concat3(front, HEADER, p.name + RIGHT_FLAG + (body + before));
  }

  lemma PartRead(p: Pair, split: string)
    requires '"' !in p.name
    ensures ReadSegment(Behind(split) + Part(p) + Before(split)) == Reading(p)
  {
    hide Search, ReadNamed, Reading, Stripped, Part, Before;
    var named := p.name + RIGHT_FLAG + (BLANK_LINE + p.value + CRLF + Before(split));
    var front := Behind(split);
    PartSplits(p, front, Before(split));
    FlagFound(front, named);
    DropOfConcat(front + HEADER, named, |front + HEADER|);
    NamedRead(p, split);
  }

  // ---------------------------------------------------------------- the whole body

  lemma Regroup(split: string, after: string)
    ensures "-" + split + after == Before(split) + (split + (Behind(split) + after))
  {
    Divides(split);
    hide Before, Behind;
    assert Before(split) + split + Behind(split) + after == Before(split) + (split + (Behind(split) + after));
  }

  lemma BodyIs(parts: seq<Pair>, boundary: string, epilogue: string)
    ensures Body(parts, boundary, epilogue) ==
            Before(Split(boundary)) + (Split(boundary) + (Behind(Split(boundary)) + After(parts, boundary, epilogue)))
  {
    hide After, Before, Behind;
    Regroup(Split(boundary), After(parts, boundary, epilogue));
    assert "--" + boundary == "-" + Split(boundary);
  }

  predicate Readable(parts: seq<Pair>) { forall p :: p in parts ==> !OnlyLineEnds(p.value) }

  /** Every pair in turn, a later one with the same name in the place of an earlier. */
  function Gathered(parts: seq<Pair>, fields: map<string, string>): map<string, string>
    requires Readable(parts)
  {
    if parts == [] then fields
    else
      assert parts[0] in parts;
      Gathered(parts[1..], fields[parts[0].name := Trimmed(parts[0].value)])
  }

  function Outcomes(parts: seq<Pair>, count: nat, fields: map<string, string>): Outcome {
    if Readable(parts) then Ended(count + |parts|, Gathered(parts, fields)) else Undefined
  }

  lemma OutcomesEnd(count: nat, fields: map<string, string>)
    ensures Outcomes([], count, fields) == Ended(count, fields)
  {}

  lemma OutcomesStep(parts: seq<Pair>, count: nat, fields: map<string, string>)
    requires parts != []
    ensures Outcomes(parts, count, fields) ==
            if OnlyLineEnds(parts[0].value) then Undefined
            else Outcomes(parts[1..], count + 1, fields[parts[0].name := Trimmed(parts[0].value)])
  {
    hide OnlyLineEnds, Trimmed;
    assert parts == [parts[0]] + parts[1..];
    assert forall p :: p in parts <==> p == parts[0] || p in parts[1..];
  }

  /** No further delimiter after the closing one, or one that leaves nothing in front of it. */
  ghost predicate Closes(split: string, epilogue: string) { split == "--" || !Occurs(split, "--" + epilogue) }

  /** The closing delimiter ends the loop. */
  lemma ScanClosing(split: string, epilogue: string, count: nat, fields: map<string, string>)
    requires split != "" && split[0] == '-' && Closes(split, epilogue)
    ensures Scan(split + (Behind(split) + ("--" + epilogue)), split, count, fields) == Ended(count, fields)
  {
    var last := Behind(split) + ("--" + epilogue);
    var rest := split + last;
    assert rest[|split|..] == last && rest[..|split|] == split;
    var next, front := Search(last, split), |Behind(split)|;
    forall j | front <= j < |last| && split != "--" ensures !Starts(last[j..], split) {
      assert last[j..] == ("--" + epilogue)[j - front..];
    }
    assert split == "--" ==> Starts(last[0..], split);
    if next < |last| {
      assert next == 0 && last[..0] == "";
      hide Scan;
      ScanStep(rest, split, count, fields);
    } else {
      hide Scan;
      ScanStop(rest, split, count, fields);
    }
  }

  ghost predicate GoodSplit(split: string) { |split| >= 2 && split[0] == '-' && NoLineEnd(split) }

  lemma PartFramed(p: Pair, split: string)
    requires GoodSplit(split) && FitsPart(p, split)
    ensures Framed(Part(p), split)
  {}

  lemma Round(split: string, seg: string, more: string, count: nat, fields: map<string, string>)
    requires split != "" && Search(seg + (split + more), split) == |seg|
    ensures Scan(split + (seg + (split + more)), split, count, fields) ==
            match ReadSegment(seg)
            case Missing => Ended(count, fields)
            case Crossed => Undefined
            case Field(name, value) => Scan(split + more, split, count + 1, fields[name := value])
  {
    var after := seg + (split + more);
    var rest := split + after;
    assert rest[|split|..] == after && rest[..|split|] == split;
    assert after[..|seg|] == seg && after[|seg|..] == split + more;
    hide *;
    ScanStep(rest, split, count, fields);
  }

  lemma Regrouped(front: string, part: string, before: string, s: string)
    ensures front + (part + (before + s)) == front + part + before + s
  {}

  /** A delimiter and a part: one round of the loop. */
  lemma ScanPart(p: Pair, split: string, more: string, count: nat, fields: map<string, string>)
    requires GoodSplit(split) && FitsPart(p, split)
    ensures Starts(split + more, split)
    ensures Starts(split + (Behind(split) + (Part(p) + (Before(split) + (split + more)))), split)
    ensures Scan(split + (Behind(split) + (Part(p) + (Before(split) + (split + more)))), split, count, fields) ==
            if OnlyLineEnds(p.value) then Undefined
            else Scan(split + more, split, count + 1, fields[p.name := Trimmed(p.value)])
  {
    PartFramed(p, split);
    hide Scan, Search, ReadSegment, Part, Behind, Before, Framed, OnlyLineEnds, Trimmed;
    NextDelimiter(Part(p), split, more);
    PartRead(p, split);
    Regrouped(Behind(split), Part(p), Before(split), split + more);
    hide Starts;
    Round(split, Behind(split) + Part(p) + Before(split), more, count, fields);
  }

  lemma {:induction false} ScanLayout(parts: seq<Pair>, boundary: string, epilogue: string, count: nat,
                                      fields: map<string, string>)
    requires GoodSplit(Split(boundary)) && Fits(parts, Split(boundary))
    requires Closes(Split(boundary), epilogue)
    ensures Starts(Split(boundary) + (Behind(Split(boundary)) + After(parts, boundary, epilogue)), Split(boundary))
    ensures Scan(Split(boundary) + (Behind(Split(boundary)) + After(parts, boundary, epilogue)), Split(boundary),
                 count, fields) == Outcomes(parts, count, fields)
    decreases |parts|
  {
    hide FitsPart, Scan, Gathered, Part, OnlyLineEnds;
    var split := Split(boundary);
    if parts == [] {
      ScanClosing(split, epilogue, count, fields);
      OutcomesEnd(count, fields);
    } else {
      var more := Behind(split) + After(parts[1..], boundary, epilogue);
      BodyIs(parts[1..], boundary, epilogue);
      assert parts[0] in parts;
      ScanPart(parts[0], split, more, count, fields);
      OutcomesStep(parts, count, fields);
      if !OnlyLineEnds(parts[0].value) {
        ScanLayout(parts[1..], boundary, epilogue, count + 1, fields[parts[0].name := Trimmed(parts[0].value)]);
      }
    }
  }

  /** What becomes of a body in the standard layout, whatever its pairs are. */
  lemma LayoutDecodes(parts: seq<Pair>, boundary: string, epilogue: string)
    requires boundary != "" && NoLineEnd(boundary) && Fits(parts, Split(boundary))
    requires Closes(Split(boundary), epilogue)
    ensures Decoding(Body(parts, boundary, epilogue), Split(boundary)) == Outcomes(parts, 0, map[])
  {
    var split := Split(boundary);
    BodyIs(parts, boundary, epilogue);
    ScanLayout(parts, boundary, epilogue, 0, map[]);
    FirstDelimiter(split, Behind(split) + After(parts, boundary, epilogue));
  }

  lemma FirstDelimiter(split: string, more: string)
    requires GoodSplit(split)
    ensures Search(Before(split) + (split + more), split) == |Before(split)|
    ensures (Before(split) + (split + more))[|Before(split)|..] == split + more
  {
    var s := Before(split) + (split + more);
    if !Dashes(split) {
      assert s == "-" + split + more && s[0..] == s;
      NotEarlier(split, more);
    }
    assert s[|Before(split)|..] == split + more;
    SearchIs(s, split, |Before(split)|);
  }

  // ---------------------------------------------------------------- six pairs there and back

  /** Has something in it and no line end at either end. */
  predicate Clean(v: string) { v != "" && !IsLineEnd(v[0]) && !IsLineEnd(v[|v| - 1]) }

  lemma CleanStays(v: string)
    ensures Clean(v) <==> !OnlyLineEnds(v) && Trimmed(v) == v
  {
    if !OnlyLineEnds(v) {
      StripFramed("\n", v, "");
      if Clean(v) {
        LeadIs(v, 0);
        TrailIs(v, 0);
      }
    }
  }

  predicate Distinct(parts: seq<Pair>) { forall i, j :: 0 <= i < j < |parts| ==> parts[i].name != parts[j].name }

  function Names(parts: seq<Pair>): set<string> { set p | p in parts :: p.name }

  predicate Recovers(fields: map<string, string>, parts: seq<Pair>) {
    fields.Keys == Names(parts) && forall p :: p in parts ==> fields[p.name] == p.value
  }

  predicate Recovered(r: Outcome, parts: seq<Pair>) { r.Decoded? && r.code == 0 && Recovers(r.fields, parts) }

  /** Every pair ends up in the map, under its name and trimmed. */
  lemma {:induction false} GatheredAll(parts: seq<Pair>, fields: map<string, string>)
    requires Readable(parts) && Distinct(parts)
    ensures var g := Gathered(parts, fields);
      && g.Keys == fields.Keys + Names(parts)
      && (forall p :: p in parts ==> g[p.name] == Trimmed(p.value))
      && (forall n :: n in fields && n !in Names(parts) ==> g[n] == fields[n])
    decreases |parts|
  {
    hide OnlyLineEnds, Trimmed;
    if parts != [] {
      var p, rest := parts[0], parts[1..];
      assert parts == [p] + rest;
      assert p in parts;
      GatheredAll(rest, fields[p.name := Trimmed(p.value)]);
      assert p.name !in Names(rest);
      assert Names(parts) == {p.name} + Names(rest) by {
        forall n | n in {p.name} + Names(rest) ensures n in Names(parts) {
          if n != p.name {
            var q :| q in rest && q.name == n;
            assert q in parts;
          }
        }
      }
    }
  }

  lemma OutcomesRecover(parts: seq<Pair>)
    requires |parts| == FIELD_CNT && Distinct(parts)
    ensures Recovered(Outcomes(parts, 0, map[]), parts) <==> forall p :: p in parts ==> Clean(p.value)
  {
    hide Gathered, Clean, OnlyLineEnds, Trimmed, Names, Distinct;
    forall p | p in parts ensures Clean(p.value) <==> !OnlyLineEnds(p.value) && Trimmed(p.value) == p.value {
      CleanStays(p.value);
    }
    if Readable(parts) {
      GatheredAll(parts, map[]);
    }
  }

  /** The six pairs of an upload are all recovered exactly if none of the values is empty or has a
      line end at its start or end. */
  lemma RoundTrip(parts: seq<Pair>, boundary: string, epilogue: string)
    requires boundary != "" && NoLineEnd(boundary) && Fits(parts, Split(boundary))
    requires Closes(Split(boundary), epilogue)
    requires |parts| == FIELD_CNT && Distinct(parts)
    ensures Recovered(Decoding(Body(parts, boundary, epilogue), Split(boundary)), parts) <==>
            forall p :: p in parts ==> Clean(p.value)
  {
    LayoutDecodes(parts, boundary, epilogue);
    hide *;
    OutcomesRecover(parts);
  }

  /** The usual end of a body is one that closes it. */
  lemma UsualEnd(boundary: string)
    requires boundary != "" && NoLineEnd(boundary)
    ensures Closes(Split(boundary), CRLF)
  {
    var split, end := Split(boundary), "--" + CRLF;
    if split != "--" {
      assert boundary[0] in boundary;
      if boundary[0] == '-' { assert boundary != "-" && boundary[1] in boundary; }
      forall j | 0 <= j <= |end| ensures !Starts(end[j..], split) {
        if j == 0 {
          Differs(end, split, if boundary[0] == '-' then 2 else 1);
          assert end[0..] == end;
        } else if j == 1 {
          Differs(end[j..], split, 1);
        } else {
          Differs(end[j..], split, 0);
        }
      }
    }
  }

  // ---------------------------------------------------------------- an upload that is not recovered

  function SixPairs(value: string): seq<Pair> {
    [Pair("a", value), Pair("b", "x"), Pair("c", "x"), Pair("d", "x"), Pair("e", "x"), Pair("f", "x")]
  }

  /** A delimiter does not occur where its last character does not. */
  lemma Absent(split: string, text: string)
    requires split != "" && split[|split| - 1] !in text
    ensures !Occurs(split, text)
  {
    var n := |split| - 1;
    forall j | 0 <= j <= |text| ensures !Starts(text[j..], split) {
      if j + n < |text| { assert text[j + n] in text; }
      Differs(text[j..], split, n);
    }
  }

  lemma SmallPartFits(p: Pair)
    requires |p.name| == 1 && 'a' <= p.name[0] <= 'f' && (p.value == "" || p.value == "x")
    ensures FitsPart(p, "-Z")
  {
    PartIs(p);
    assert forall i :: 0 <= i < |HEADER| ==> HEADER[i] != 'Z';
    assert 'Z' !in HEADER;
    Absent("-Z", Part(p));
  }

  lemma SixPairsFit(value: string)
    requires value == "" || value == "x"
    ensures Fits(SixPairs(value), "-Z") && Distinct(SixPairs(value)) && |SixPairs(value)| == FIELD_CNT
  {
    hide FitsPart;
    forall p | p in SixPairs(value) ensures FitsPart(p, "-Z") { SmallPartFits(p); }
  }

  lemma SixValues()
    ensures !Readable(SixPairs("")) && forall p :: p in SixPairs("x") ==> Clean(p.value)
  {
    var none := SixPairs("");
    assert none[0] in none && OnlyLineEnds(none[0].value);
  }

  /** With the boundary "Z", an upload of six pairs is not recovered if the first value is empty, and
      is if it is not. */
  lemma EmptyIsLost()
    ensures Decoding(Body(SixPairs(""), "Z", CRLF), "-Z") == Undefined
    ensures Recovered(Decoding(Body(SixPairs("x"), "Z", CRLF), "-Z"), SixPairs("x"))
  {
    assert Split("Z") == "-Z" && NoLineEnd("Z");
    SixPairsFit("");
    SixPairsFit("x");
    SixValues();
    NotReadable(SixPairs(""));
    hide *;
    UsualEnd("Z");
    LayoutDecodes(SixPairs(""), "Z", CRLF);
    RoundTrip(SixPairs("x"), "Z", CRLF);
  }

  lemma NotReadable(parts: seq<Pair>)
    requires !Readable(parts)
    ensures Outcomes(parts, 0, map[]) == Undefined
  {}
}
