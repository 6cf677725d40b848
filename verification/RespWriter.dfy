/** The command writers of redis/hiredis.c: their length is known before a byte is written,
    they agree with each other, and the reader reads back what they were given. */
module RespWriter {
  import opened Options
  import opened Decimal
  import opened Integers
  import opened CStrings
  import opened Resp
  import RespWire

  // ---------------------------------------------------------------- commands

  function Bulks(argv: seq<string>): (rs: seq<Reply>)
    ensures |rs| == |argv|
    ensures forall i :: 0 <= i < |argv| ==> rs[i] == Bulk(argv[i])
  {
    seq(|argv|, i requires 0 <= i < |argv| => Bulk(argv[i]))
  }

  /** A command is an array of bulk strings. */
  function Command(argv: seq<string>): string { Encode(Array(Bulks(argv))) }

  function BulkText(a: string): string { "$" + Dec(|a|) + CRLF + a + CRLF }

  function BulkTexts(argv: seq<string>): string {
    if argv == [] then "" else BulkTexts(argv[..|argv| - 1]) + BulkText(argv[|argv| - 1])
  }

  function Header(argc: nat): string { "*" + Dec(argc) + CRLF }

  lemma {:induction false} EncodeAllSnoc(es: seq<Reply>, e: Reply)
    ensures EncodeAll(es + [e]) == EncodeAll(es) + Encode(e)
    decreases |es|
  {
    hide Encode;
    if es == [] {
      assert [e][1..] == [];
      assert EncodeAll([e]) == Encode(e) + EncodeAll([]);
    } else {
      assert (es + [e])[1..] == es[1..] + [e];
      EncodeAllSnoc(es[1..], e);
    }
  }

  lemma {:induction false} BulkTextsEncode(argv: seq<string>)
    ensures EncodeAll(Bulks(argv)) == BulkTexts(argv)
    decreases |argv|
  {
    hide Encode, BulkText;
    if argv != [] {
      var init, a := argv[..|argv| - 1], argv[|argv| - 1];
      BulkTextsEncode(init);
      EncodeAllSnoc(Bulks(init), Bulk(a));
      assert Bulks(argv) == Bulks(init) + [Bulk(a)];
      BulkEncodes(a);
    }
  }

  lemma BulkEncodes(a: string)
    ensures Encode(Bulk(a)) == BulkText(a)
  {
  }

  lemma CommandText(argv: seq<string>)
    ensures Command(argv) == Header(|argv|) + BulkTexts(argv)
  {
    BulkTextsEncode(argv);
  }

  /** The reader gives the arguments back and stops right behind the command. */
  lemma CommandReadBack(argv: seq<string>, rest: string)
    requires |argv| <= INT_MAX && forall a :: a in argv ==> |a| <= LLONG_MAX
    ensures ReadItem(Command(argv) + rest, 0) == Done(Array(Bulks(argv)), rest)
  {
    hide ReadItem;
    RespWire.RoundTrip(Array(Bulks(argv)), rest, 0);
  }

  // ---------------------------------------------------------------- lengths

  method CountDigits(value: nat) returns (result: nat)
    requires value <= ULLONG_MAX
    ensures result == |Dec(value)|
  {
    result := 1;
    var v := value;
    while true
      invariant result >= 1 && |Dec(value)| == result - 1 + |Dec(v)|
      decreases v
    {
      FourDigits(v);
      if v < 10 { return result; }
      if v < 100 { return result + 1; }
      if v < 1000 { return result + 2; }
      if v < 10000 { return result + 3; }
      v := v / 10000;
      result := result + 4;
    }
  }

  lemma FourDigits(v: nat)
    ensures v < 10 ==> |Dec(v)| == 1
    ensures 10 <= v < 100 ==> |Dec(v)| == 2
    ensures 100 <= v < 1000 ==> |Dec(v)| == 3
    ensures 1000 <= v < 10000 ==> |Dec(v)| == 4
    ensures v >= 10000 ==> |Dec(v)| == 4 + |Dec(v / 10000)|
  {
    OneDigit(v);
    OneDigit(v / 10);
    OneDigit(v / 10 / 10);
    OneDigit(v / 10 / 10 / 10);
    assert v / 10 / 10 / 10 / 10 == v / 10000;
  }

  lemma OneDigit(v: nat)
    ensures |Dec(v)| == if v < 10 then 1 else 1 + |Dec(v / 10)|
  {
  }

  method BulkLen(n: nat) returns (r: nat)
    requires n <= ULLONG_MAX
    ensures r == 1 + |Dec(n)| + 2 + n + 2
  {
    var digits := CountDigits(n);
    r := 1 + digits + 2 + n + 2;
  }

  lemma BulkTextsSnoc(argv: seq<string>, i: nat)
    requires i < |argv|
    ensures BulkTexts(argv[..i + 1]) == BulkTexts(argv[..i]) + BulkText(argv[i])
    ensures |BulkText(argv[i])| == 1 + |Dec(|argv[i]|)| + 2 + |argv[i]| + 2
  {
    assert argv[..i + 1][..i] == argv[..i];
  }

  lemma {:induction false} BulkTextsGrow(argv: seq<string>, i: nat)
    requires i <= |argv|
    ensures |BulkTexts(argv[..i])| <= |BulkTexts(argv)|
    ensures i < |argv| ==> |argv[i]| <= |BulkTexts(argv)|
    decreases |argv| - i
  {
    hide BulkText;
    if i == |argv| {
      assert argv[..i] == argv;
    } else {
      BulkTextsSnoc(argv, i);
      BulkTextsGrow(argv, i + 1);
    }
  }

  /** "Total size within int range", with the null term. */
  predicate FitsInt(argv: seq<string>) { |Command(argv)| < INT_MAX && |argv| <= INT_MAX }

  lemma FitsEach(argv: seq<string>, i: nat)
    requires FitsInt(argv) && i <= |argv|
    ensures |Header(|argv|)| + |BulkTexts(argv[..i])| <= |Command(argv)| < INT_MAX
    ensures i < |argv| ==> |argv[i]| < INT_MAX
    ensures i < |argv| ==> |Header(|argv|)| + |BulkTexts(argv[..i])| + |BulkText(argv[i])| <= |Command(argv)|
  {
    hide Command, Header, BulkText, BulkTexts;
    CommandText(argv);
    BulkTextsGrow(argv, i);
    if i < |argv| {
      BulkTextsGrow(argv, i + 1);
      BulkTextsSnoc(argv, i);
    }
  }

  // ---------------------------------------------------------------- arguments

  predicate Lengths(argv: seq<string>, lens: Option<seq<nat>>) {
    lens.Some? ==> |lens.value| == |argv| && forall i :: 0 <= i < |argv| ==> lens.value[i] <= |argv[i]|
  }

  /** The arguments that are meant: all of `lens[i]` bytes, or up to the null bytes. */
  function Meant(argv: seq<string>, lens: Option<seq<nat>>): (r: seq<string>)
    requires Lengths(argv, lens)
    ensures |r| == |argv|
  {
    seq(|argv|, i requires 0 <= i < |argv| => if lens.Some? then argv[i][..lens.value[i]] else CString(argv[i]))
  }

  // ---------------------------------------------------------------- the formatters

  /** memcpy to the place `pos`. */
  method Copy(cmd: array<char>, pos: nat, text: string) returns (end: nat)
    requires pos + |text| <= cmd.Length
    modifies cmd
    ensures end == pos + |text| && cmd[..end] == old(cmd[..pos]) + text
  {
    for i := 0 to |text|
      invariant cmd[..pos] == old(cmd[..pos])
      invariant cmd[pos..pos + i] == text[..i]
    {
      cmd[pos + i] := text[i];
      assert cmd[pos..pos + i + 1] == cmd[pos..pos + i] + [text[i]];
    }
    end := pos + |text|;
    assert cmd[..end] == cmd[..pos] + cmd[pos..end];
  }

  /** sprintf to the place `pos`: it writes a null byte too. */
  method Print(cmd: array<char>, pos: nat, text: string) returns (end: nat)
    requires pos + |text| < cmd.Length
    modifies cmd
    ensures end == pos + |text| && cmd[..end] == old(cmd[..pos]) + text
  {
    end := Copy(cmd, pos, text);
    cmd[end] := '\0';
  }

  /** The size of the command, before any of it is written. */
  method TotalLength(argv: seq<string>) returns (total: nat)
    requires FitsInt(argv)
    ensures total == |Command(argv)|
  {
    hide Command, BulkText, BulkTexts;
    CommandText(argv);
    var digits := CountDigits(|argv|);
    total := 1 + digits + 2;
    assert BulkTexts(argv[..0]) == "" by { assert argv[..0] == []; EmptyTexts(); }
    for j := 0 to |argv|
      invariant total == |Header(|argv|)| + |BulkTexts(argv[..j])|
    {
      FitsEach(argv, j);
      BulkTextsSnoc(argv, j);
      var n := BulkLen(|argv[j]|);
      total := total + n;
    }
    assert argv[..|argv|] == argv;
  }

  lemma EmptyTexts()
    ensures BulkTexts([]) == ""
  {
  }

  /** redisFormatCommandArgv: the buffer is exactly large enough, and so is what is written. */
  method FormatCommandArgv(argv: seq<string>, lens: Option<seq<nat>>) returns (cmd: array<char>, total: nat)
    requires Lengths(argv, lens) && FitsInt(Meant(argv, lens))
    ensures fresh(cmd) && cmd.Length == total + 1 && cmd[..total] == Command(Meant(argv, lens)) && cmd[total] == '\0'
  {
    cmd, total := Build(Meant(argv, lens));
  }

  /** The part that the formatters share: `*argc`, and each argument with its length. */
  method Build(argv: seq<string>) returns (cmd: array<char>, total: nat)
    requires FitsInt(argv)
    ensures fresh(cmd) && cmd.Length == total + 1 && cmd[..total] == Command(argv) && cmd[total] == '\0'
  {
    hide Command, BulkText, BulkTexts, Dec;
    total := TotalLength(argv);
    cmd := new char[total + 1];
    CommandText(argv);
    EmptyTexts();
    FitsEach(argv, 0);
    var pos := Print(cmd, 0, "*" + Dec(|argv|) + CRLF);
    assert argv[..0] == [];
    for j := 0 to |argv|
      invariant 0 <= pos <= total && cmd.Length == total + 1 && cmd[..pos] == Header(|argv|) + BulkTexts(argv[..j])
    {
      FitsEach(argv, j);
      BulkTextsSnoc(argv, j);
      pos := Argument(cmd, pos, argv[j]);
      assert Header(|argv|) + BulkTexts(argv[..j]) + BulkText(argv[j]) == Header(|argv|) + BulkTexts(argv[..j + 1]);
    }
    assert argv[..|argv|] == argv;
    cmd[pos] := '\0';
  }

  method Argument(cmd: array<char>, pos: nat, arg: string) returns (end: nat)
    requires pos + |BulkText(arg)| < cmd.Length
    modifies cmd
    ensures end == pos + |BulkText(arg)| && cmd[..end] == old(cmd[..pos]) + BulkText(arg)
  {
    hide Dec;
    ghost var before := cmd[..pos];
    end := Print(cmd, pos, "$" + Dec(|arg|) + CRLF);
    end := Copy(cmd, end, arg);
    cmd[end], cmd[end + 1] := CR, LF;
    end := end + 2;
    assert cmd[..end] == cmd[..end - 2] + CRLF;
    assert before + ("$" + Dec(|arg|) + CRLF) + arg + CRLF == before + BulkText(arg);
  }

  /** redisFormatSdsCommandArgv: the same bytes, appended to a growing string. */
  method FormatSdsCommandArgv(argv: seq<string>, lens: Option<seq<nat>>) returns (cmd: string, total: nat)
    requires Lengths(argv, lens) && FitsInt(Meant(argv, lens))
    ensures cmd == Command(Meant(argv, lens)) && total == |cmd|
  {
    hide Command, BulkText, BulkTexts, Dec;
    var args := Meant(argv, lens);
    total := TotalLength(args);
    CommandText(args);
    EmptyTexts();
    cmd := "*" + Dec(|args|) + CRLF;
    assert args[..0] == [];
    for j := 0 to |args|
      invariant cmd == Header(|args|) + BulkTexts(args[..j])
    {
      FitsEach(args, j);
      BulkTextsSnoc(args, j);
      var bulk := SdsArgument(args[j]);
      assert Header(|args|) + BulkTexts(args[..j]) + BulkText(args[j]) == Header(|args|) + BulkTexts(args[..j + 1]);
      cmd := cmd + bulk;
    }
    assert args[..|args|] == args;
  }

  /** `%u` prints an unsigned int. */
  method SdsArgument(arg: string) returns (text: string)
    requires |arg| <= INT_MAX
    ensures text == BulkText(arg)
  {
    text := "$" + Dec(|arg| % 0x1_0000_0000) + CRLF;
    text := text + arg;
    text := text + CRLF;
  }

  // ---------------------------------------------------------------- formats

  /** The loop of redisvFormatCommand over its format, from the argument `cur` on; None at the
      conversions that are not `%s`, `%b` or `%%`, and when arguments run out. */
  function Cut(cur: string, touched: bool, f: string, args: seq<string>): Option<seq<string>>
    decreases |f|
  {
    if f == "" then Some(if touched then [cur] else [])
    else if f[0] != '%' || |f| == 1 then
      if f[0] == ' ' then
        if touched then
          (match Cut("", false, f[1..], args)
           case None => None
           case Some(argv) => Some([cur] + argv))
        else Cut(cur, false, f[1..], args)
      else Cut(cur + [f[0]], true, f[1..], args)
    else if f[1] == '%' then Cut(cur + "%", true, f[2..], args)
    else if (f[1] == 's' || f[1] == 'b') && args != [] then
      Cut(cur + (if f[1] == 's' then CString(args[0]) else args[0]), true, f[2..], args[1..])
    else None
  }

  /** redisvFormatCommand. */
  method VFormatCommand(format: string, args: seq<string>) returns (r: Option<array<char>>)
    requires var argv := Cut("", false, format, args); argv.Some? ==> FitsInt(argv.value)
    ensures match Cut("", false, format, args)
            case None => r == None
            case Some(argv) => r.Some? && fresh(r.value) && r.value[..] == Command(argv) + ['\0']
  {
    hide Command, FitsInt, CString;
    var c, ap := 0, 0;
    var cur, touched := "", false;
    var argv: seq<string> := [];
    ghost var whole := Cut("", false, format, args);
    assert format[0..] == format && args[0..] == args;
    assert whole == Joined([], Cut("", false, format, args)) by {
      if whole.Some? { assert [] + whole.value == whole.value; }
    }
    while c < |format|
      invariant 0 <= c <= |format| && 0 <= ap <= |args| && (!touched ==> cur == "")
      invariant whole == Joined(argv, Cut(cur, touched, format[c..], args[ap..]))
      decreases |format| - c
    {
      CutStep(cur, touched, format, c, args, ap);
      if format[c] != '%' || c + 1 == |format| {
        if format[c] == ' ' {
          if touched {
            JoinedMore(argv, cur, Cut("", false, format[c + 1..], args[ap..]));
            argv := argv + [cur];
            cur, touched := "", false;
          }
        } else {
          cur, touched := cur + [format[c]], true;
        }
      } else {
        if format[c + 1] == 's' && ap < |args| {
          cur, ap := cur + CString(args[ap]), ap + 1;
        } else if format[c + 1] == 'b' && ap < |args| {
          cur, ap := cur + args[ap], ap + 1;
        } else if format[c + 1] == '%' {
          cur := cur + "%";
        } else {
          return None;
        }
        touched := true;
        c := c + 1;
      }
      c := c + 1;
    }
    assert format[c..] == "" && argv + [] == argv;
    if touched { argv := argv + [cur]; }
    assert whole == Some(argv);
    var cmd, total := Build(argv);
    assert cmd[..] == cmd[..total] + ['\0'];
    return Some(cmd);
  }

  function Joined(argv: seq<string>, more: Option<seq<string>>): Option<seq<string>> {
    match more case None => None case Some(xs) => Some(argv + xs)
  }

  lemma JoinedMore(argv: seq<string>, cur: string, more: Option<seq<string>>)
    ensures Joined(argv, Joined([cur], more)) == Joined(argv + [cur], more)
  {
    if more.Some? { assert argv + ([cur] + more.value) == argv + [cur] + more.value; }
  }

  /** One turn of the loop, on places in the format and in the arguments. */
  lemma CutStep(cur: string, touched: bool, f: string, c: nat, args: seq<string>, ap: nat)
    requires c < |f| && ap <= |args|
    ensures var now := Cut(cur, touched, f[c..], args[ap..]);
      if f[c] != '%' || c + 1 == |f| then
        if f[c] == ' ' then
          now == if touched then Joined([cur], Cut("", false, f[c + 1..], args[ap..]))
                 else Cut(cur, false, f[c + 1..], args[ap..])
        else now == Cut(cur + [f[c]], true, f[c + 1..], args[ap..])
      else if f[c + 1] == '%' then now == Cut(cur + "%", true, f[c + 2..], args[ap..])
      else if (f[c + 1] == 's' || f[c + 1] == 'b') && ap < |args| then
        now == Cut(cur + (if f[c + 1] == 's' then CString(args[ap]) else args[ap]), true, f[c + 2..], args[ap + 1..])
      else now == None
  {
    hide CString;
    assert f[c..][1..] == f[c + 1..];
    if c + 1 < |f| { assert f[c..][2..] == f[c + 2..]; }
    if ap < |args| { assert args[ap..][1..] == args[ap + 1..]; }
  }

  // ---------------------------------------------------------------- argument boundaries

  /** The place of the first space, or the end. */
  function WordEnd(f: string): (n: nat)
    ensures n <= |f| && (n < |f| ==> f[n] == ' ') && forall i :: 0 <= i < n ==> f[i] != ' '
  {
    if f == "" || f[0] == ' ' then 0 else 1 + WordEnd(f[1..])
  }

  /** The words of a format: what stands between spaces. */
  function Words(f: string): seq<string>
    decreases |f|
  {
    if f == "" then []
    else if f[0] == ' ' then Words(f[1..])
    else [f[..WordEnd(f)]] + Words(f[WordEnd(f)..])
  }

  /** A word is filled in: the text, and how many arguments that took. */
  function Fill(w: string, args: seq<string>): Option<(string, nat)>
    decreases |w|
  {
    if w == "" then Some(("", 0))
    else if w[0] != '%' || |w| == 1 then Before([w[0]], 0, Fill(w[1..], args))
    else if w[1] == '%' then Before("%", 0, Fill(w[2..], args))
    else if (w[1] == 's' || w[1] == 'b') && args != [] then
      Before(if w[1] == 's' then CString(args[0]) else args[0], 1, Fill(w[2..], args[1..]))
    else None
  }

  function Before(text: string, used: nat, more: Option<(string, nat)>): Option<(string, nat)> {
    match more case None => None case Some(m) => Some((text + m.0, used + m.1))
  }

  lemma {:induction false} FillUses(w: string, args: seq<string>)
    ensures Fill(w, args).Some? ==> Fill(w, args).value.1 <= |args|
    decreases |w|
  {
    hide CString;
    if w == "" {
    } else if w[0] != '%' || |w| == 1 {
      FillUses(w[1..], args);
    } else if w[1] == '%' {
      FillUses(w[2..], args);
    } else if args != [] {
      FillUses(w[2..], args[1..]);
    }
  }

  /** The words filled in one after the other. */
  function FillAll(ws: seq<string>, args: seq<string>): Option<seq<string>> {
    if ws == [] then Some([])
    else
      match Fill(ws[0], args)
      case None => None
      case Some(filled) =>
        FillUses(ws[0], args);
        Joined([filled.0], FillAll(ws[1..], args[filled.1..]))
  }

  /** The argument in hand, with the word in which the format goes on. */
  ghost function Resumed(cur: string, w: string, f: string, args: seq<string>): Option<seq<string>> {
    match Fill(w, args)
    case None => None
    case Some(filled) =>
      FillUses(w, args);
      Joined([cur + filled.0], FillAll(Words(f), args[filled.1..]))
  }

  /** A `%` before a space would be a conversion with a flag: not one of `%s`, `%b`, `%%`. */
  predicate Plain(f: string)
    decreases |f|
  {
    if f == "" then true
    else if f[0] != '%' || |f| == 1 then Plain(f[1..])
    else f[1] in {'s', 'b', '%'} && Plain(f[2..])
  }

  lemma FillStep(w: string, f: string, args: seq<string>)
    requires f != "" && f[0] != ' ' && Plain(f) && w == f[..WordEnd(f)]
    ensures f[0] != '%' || |f| == 1 ==>
      WordEnd(f) == 1 + WordEnd(f[1..]) && w[1..] == f[1..][..WordEnd(f[1..])]
      && f[WordEnd(f)..] == f[1..][WordEnd(f[1..])..] && Fill(w, args) == Before([f[0]], 0, Fill(w[1..], args))
    ensures f[0] == '%' && |f| > 1 ==>
      WordEnd(f) == 2 + WordEnd(f[2..]) && w[2..] == f[2..][..WordEnd(f[2..])]
      && f[WordEnd(f)..] == f[2..][WordEnd(f[2..])..]
      && Fill(w, args) ==
           if f[1] == '%' then Before("%", 0, Fill(w[2..], args))
           else if args == [] then None
           else Before(if f[1] == 's' then CString(args[0]) else args[0], 1, Fill(w[2..], args[1..]))
  {
    hide CString;
    if f[0] == '%' && |f| > 1 {
      assert WordEnd(f[1..]) == 1 + WordEnd(f[1..][1..]) && f[1..][1..] == f[2..];
    }
  }

  /** The text before what remains of a word goes to the argument in hand. */
  lemma ResumeAfter(cur: string, text: string, used: nat, w: string, w': string, f: string, args: seq<string>)
    requires used <= |args| && Fill(w, args) == Before(text, used, Fill(w', args[used..]))
    ensures Resumed(cur, w, f, args) == Resumed(cur + text, w', f, args[used..])
  {
    hide FillAll, Words;
    FillUses(w, args);
    FillUses(w', args[used..]);
    var o := Fill(w', args[used..]);
    if o.Some? {
      assert cur + (text + o.value.0) == cur + text + o.value.0;
      assert args[used..][o.value.1..] == args[used + o.value.1..];
    }
  }

  lemma {:induction false} CutResumes(cur: string, touched: bool, f: string, args: seq<string>)
    requires Plain(f)
    ensures touched ==> Cut(cur, true, f, args) == Resumed(cur, f[..WordEnd(f)], f[WordEnd(f)..], args)
    ensures !touched && cur == "" ==> Cut("", false, f, args) == FillAll(Words(f), args)
    decreases |f|
  {
    hide CString, Fill, Resumed, FillAll;
    var n := WordEnd(f);
    var w := f[..n];
    if f == "" {
      EmptyWord(cur, args);
    } else if f[0] == ' ' {
      CutResumes("", false, f[1..], args);
      assert w == "" && f[n..] == f;
      WordOver(cur, f, args);
    } else {
      if !touched { WordStarts(f, args); }
      FillStep(w, f, args);
      if f[0] != '%' || |f| == 1 {
        CutResumes(cur + [f[0]], true, f[1..], args);
        assert args[0..] == args;
        ResumeAfter(cur, [f[0]], 0, w, w[1..], f[n..], args);
      } else if f[1] == '%' {
        CutResumes(cur + "%", true, f[2..], args);
        assert args[0..] == args;
        ResumeAfter(cur, "%", 0, w, w[2..], f[n..], args);
      } else if args == [] {
        NotResumed(cur, w, f[n..], args);
      } else {
        var text := if f[1] == 's' then CString(args[0]) else args[0];
        CutResumes(cur + text, true, f[2..], args[1..]);
        ResumeAfter(cur, text, 1, w, w[2..], f[n..], args);
      }
    }
  }

  lemma EmptyWord(cur: string, args: seq<string>)
    ensures Resumed(cur, "", "", args) == Some([cur]) && FillAll([], args) == Some([])
  {
    assert cur + "" == cur && [cur] + [] == [cur];
  }

  lemma WordOver(cur: string, f: string, args: seq<string>)
    requires f != "" && f[0] == ' '
    ensures Resumed(cur, "", f, args) == Joined([cur], FillAll(Words(f[1..]), args))
  {
    hide FillAll;
    assert cur + "" == cur && args[0..] == args;
  }

  lemma NotResumed(cur: string, w: string, f: string, args: seq<string>)
    requires Fill(w, args) == None
    ensures Resumed(cur, w, f, args) == None
  {
  }

  lemma WordStarts(f: string, args: seq<string>)
    requires f != "" && f[0] != ' '
    ensures FillAll(Words(f), args) == Resumed("", f[..WordEnd(f)], f[WordEnd(f)..], args)
    ensures Cut("", false, f, args) == Cut("", true, f, args)
  {
    hide Fill, CString;
    var w, ws := f[..WordEnd(f)], Words(f[WordEnd(f)..]);
    assert Words(f)[0] == w && Words(f)[1..] == ws;
    FillUses(w, args);
    if Fill(w, args).Some? { assert "" + Fill(w, args).value.0 == Fill(w, args).value.0; }
  }

  lemma {:induction false} NotPlainNotCut(cur: string, touched: bool, f: string, args: seq<string>)
    requires !Plain(f)
    ensures Cut(cur, touched, f, args) == None
    decreases |f|
  {
    hide CString;
    if f[0] != '%' || |f| == 1 {
      if f[0] != ' ' { NotPlainNotCut(cur + [f[0]], true, f[1..], args); }
      else { NotPlainNotCut(if touched then "" else cur, false, f[1..], args); }
    } else if f[1] == '%' {
      NotPlainNotCut(cur + "%", true, f[2..], args);
    } else if (f[1] == 's' || f[1] == 'b') && args != [] {
      NotPlainNotCut(cur + (if f[1] == 's' then CString(args[0]) else args[0]), true, f[2..], args[1..]);
    }
  }

  /** Arguments begin and end where the format has spaces, and nowhere else: the command has one
      argument for each word of the format, whatever is put into it. */
  lemma BoundariesComeFromTheFormat(f: string, args: seq<string>)
    ensures Cut("", false, f, args) == if Plain(f) then FillAll(Words(f), args) else None
    ensures Cut("", false, f, args).Some? ==> |Cut("", false, f, args).value| == |Words(f)|
  {
    hide Cut, FillAll, Words;
    if Plain(f) {
      CutResumes("", false, f, args);
      OneEach(Words(f), args);
    } else {
      NotPlainNotCut("", false, f, args);
    }
  }

  lemma {:induction false} OneEach(ws: seq<string>, args: seq<string>)
    ensures FillAll(ws, args).Some? ==> |FillAll(ws, args).value| == |ws|
    decreases |ws|
  {
    hide Fill;
    if ws != [] && Fill(ws[0], args).Some? {
      FillUses(ws[0], args);
      OneEach(ws[1..], args[Fill(ws[0], args).value.1..]);
    }
  }
}
