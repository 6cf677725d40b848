/** The writers of jsoncpp/json_writer.cpp: both print the tokens of a value, and nothing else but
    blanks between them. */
module JsonWriter {
  import opened Options
  import CStrings
  import opened Integers
  import opened JsonText
  import opened JsonNumber
  import opened Json
  import JsonDocs

  // ---------------------------------------------------------------- rendered tokens

  /** `s` is the tokens `ts`, with blanks before any of them. */
  ghost predicate Renders(ts: seq<string>, s: string) { NoneEmpty(ts) && Consume(ts, s) == Some("") }

  lemma RendersConcat(ts: seq<string>, a: string, us: seq<string>, b: string)
    requires Renders(ts, a) && Renders(us, b)
    ensures Renders(ts + us, a + b)
  {
    ConsumeMore(ts, a, b);
    assert "" + b == b;
    ConsumeConcat(ts, us, a + b);
  }

  lemma RendersNothing()
    ensures Renders([], "")
  {
  }

  lemma RendersToken(t: string)
    requires t != "" && !IsBlank(t[0])
    ensures Renders([t], t)
  {
    assert SkipSpaces(t) == t && t[|t|..] == "" && [t][1..] == [];
  }

  predicate AllBlank(w: string) { forall c :: c in w ==> IsBlank(c) }

  lemma RendersAfterBlanks(w: string, ts: seq<string>, s: string)
    requires ts != [] && AllBlank(w) && Renders(ts, s)
    ensures Renders(ts, w + s)
  {
    SkipBlanks(w, s);
  }

  /** One more token, blanks before it. */
  lemma RendersMore(ts: seq<string>, a: string, w: string, t: string)
    requires Renders(ts, a) && AllBlank(w) && t != "" && !IsBlank(t[0])
    ensures Renders(ts + [t], a + (w + t))
  {
    RendersToken(t);
    RendersAfterBlanks(w, [t], t);
    RendersConcat(ts, a, [t], w + t);
  }

  /** What a value that is not a filled container is printed as. */
  function Scalar(v: Json): string
    requires Simple(v)
  {
    match v
    case Null => NULL
    case Bool(b) => if b then TRUE else FALSE
    case Int(n) => Show(n)
    case UInt(n) => Show(n)
    case Str(s) => Quoted(CStrings.CString(s))
    case Arr(_) => "[]"
    case Obj(_) => "{}"
  }

  predicate Simple(v: Json) { (v.Arr? ==> v.elements == []) && (v.Obj? ==> v.members == []) }

  lemma ScalarRenders(v: Json)
    requires Simple(v)
    ensures Renders(Tokens(v), Scalar(v))
  {
    hide Renders;
    match v
    case Null => RendersToken(NULL);
    case Bool(b) => RendersToken(if b then TRUE else FALSE);
    case Int(n) => ShowStarts(n); RendersToken(Show(n));
    case UInt(n) => ShowStarts(n); RendersToken(Show(n));
    case Str(s) => RendersToken(Quoted(CStrings.CString(s)));
    case Arr(_) => BothRender("[", "]"); assert Tokens(v) == ["["] + ["]"] && "[" + "]" == "[]";
    case Obj(_) => BothRender("{", "}"); assert Tokens(v) == ["{"] + ["}"] && "{" + "}" == "{}";
  }

  lemma BothRender(a: string, b: string)
    requires a in {"[", "{"} && b in {"]", "}"}
    ensures Renders([a] + [b], a + b)
  {
    RendersToken(a);
    RendersToken(b);
    RendersConcat([a], a, [b], b);
  }

  /** valueToString and its relatives. */
  method ScalarText(v: Json) returns (text: string)
    requires Simple(v) && Writable(v)
    ensures text == Scalar(v)
  {
    match v
    case Null => return NULL;
    case Bool(b) => return if b then TRUE else FALSE;
    case Int(n) => text := ValueToString(n);
    case UInt(n) => text := UnsignedToString(n);
    case Str(s) => text := ValueToQuotedString(s);
    case Arr(_) => return "[]";
    case Obj(_) => return "{}";
  }

  // ---------------------------------------------------------------- FastWriter

  class FastWriter {
    var document: string
    const yamlCompatibilityEnabled: bool

    constructor (yaml: bool)
      ensures document == "" && yamlCompatibilityEnabled == yaml
    {
      document := "";
      yamlCompatibilityEnabled := yaml;
    }

    method Write(root: Json) returns (text: string)
      requires Writable(root)
      modifies this
      ensures text == FastText(root, yamlCompatibilityEnabled) + "\n" == document
      ensures Parse(text) == Some(Normal(root)) && (Parse(text) == Some(root) <==> IsNormal(root))
    {
      hide FastText, Normal, IsNormal, Parse;
      FastRoundTrip(root, yamlCompatibilityEnabled);
      document := "";
      WriteValue(root);
      document := document + "\n";
      return document;
    }

    method WriteValue(value: Json)
      requires Writable(value)
      modifies this
      ensures document == old(document) + FastText(value, yamlCompatibilityEnabled)
      decreases value
    {
      match value {
        case Arr(es) => WriteArray(value, es);
        case Obj(ms) => WriteObject(value, ms);
        case _ =>
          var text := ScalarText(value);
          document := document + text;
      }
    }

    method WriteArray(value: Json, es: seq<Json>)
      requires value == Arr(es) && Writable(value)
      modifies this
      ensures document == old(document) + ("[" + FastElements(es, yamlCompatibilityEnabled) + "]")
      decreases value, 0
    {
      hide FastText, FastElements, Separator;
      var yaml := yamlCompatibilityEnabled;
      document := document + "[";
      assert es[0..] == es;
      NoSeparator();
      for index := 0 to |es|
        invariant document + Separator(0 < index < |es|) + FastElements(es[index..], yaml)
               == old(document) + "[" + FastElements(es, yaml)
      {
        if index > 0 { document := document + ","; }
        ghost var before := document;
        assert es[index] in es;
        WriteValue(es[index]);
        ElementNext(es, index, yaml, before);
      }
      NoElements(yaml);
      assert es[|es|..] == [];
      assert document + "" + "" == document;
      assert old(document) + "[" + FastElements(es, yaml) + "]" == old(document) + ("[" + FastElements(es, yaml) + "]");
      document := document + "]";
    }

    method WriteObject(value: Json, ms: seq<Member>)
      requires value == Obj(ms) && Writable(value)
      modifies this
      ensures document == old(document) + ("{" + FastMembers(ms, yamlCompatibilityEnabled) + "}")
      decreases value, 0
    {
      hide FastText, FastMembers, Separator, Quoted, Sorted;
      var yaml := yamlCompatibilityEnabled;
      document := document + "{";
      assert ms[0..] == ms;
      NoSeparator();
      for index := 0 to |ms|
        invariant document + Separator(0 < index < |ms|) + FastMembers(ms[index..], yaml)
               == old(document) + "{" + FastMembers(ms, yaml)
      {
        if index > 0 { document := document + ","; }
        ghost var before := document;
        assert ms[index] in ms;
        CStrings.WholeCString(ms[index].name);
        var name := ValueToQuotedString(ms[index].name);
        document := document + name;
        document := document + if yaml then ": " else ":";
        WriteValue(ms[index].value);
        MemberNext(ms, index, yaml, before);
      }
      NoMembers(yaml);
      assert ms[|ms|..] == [];
      assert document + "" + "" == document;
      assert old(document) + "{" + FastMembers(ms, yaml) + "}" == old(document) + ("{" + FastMembers(ms, yaml) + "}");
      document := document + "}";
    }
  }

  lemma NoSeparator()
    ensures Separator(false) == "" && Separator(true) == ","
  {
  }

  lemma NoElements(yaml: bool)
    ensures FastElements([], yaml) == ""
  {
  }

  lemma NoMembers(yaml: bool)
    ensures FastMembers([], yaml) == ""
  {
  }

  function Separator(more: bool): string { if more then "," else "" }

  function FastText(v: Json, yaml: bool): string {
    match v
    case Arr(es) => "[" + FastElements(es, yaml) + "]"
    case Obj(ms) => "{" + FastMembers(ms, yaml) + "}"
    case _ => Scalar(v)
  }

  function FastElements(es: seq<Json>, yaml: bool): string {
    if es == [] then "" else FastText(es[0], yaml) + Separator(es[1..] != []) + FastElements(es[1..], yaml)
  }

  function FastMember(m: Member, yaml: bool): string {
    Quoted(m.name) + (if yaml then ": " else ":") + FastText(m.value, yaml)
  }

  function FastMembers(ms: seq<Member>, yaml: bool): string {
    if ms == [] then "" else FastMember(ms[0], yaml) + Separator(ms[1..] != []) + FastMembers(ms[1..], yaml)
  }

  lemma ElementNext(es: seq<Json>, i: nat, yaml: bool, doc: string)
    requires i < |es|
    ensures doc + FastElements(es[i..], yaml)
         == doc + FastText(es[i], yaml) + Separator(0 < i + 1 < |es|) + FastElements(es[i + 1..], yaml)
  {
    hide FastText, Separator;
    NoSeparator();
    assert es[i..][0] == es[i] && es[i..][1..] == es[i + 1..];
  }

  lemma MemberNext(ms: seq<Member>, i: nat, yaml: bool, doc: string)
    requires i < |ms|
    ensures doc + FastMembers(ms[i..], yaml)
         == doc + Quoted(ms[i].name) + (if yaml then ": " else ":") + FastText(ms[i].value, yaml)
            + Separator(0 < i + 1 < |ms|) + FastMembers(ms[i + 1..], yaml)
  {
    hide FastText, Quoted, Separator;
    NoSeparator();
    assert ms[i..][0] == ms[i] && ms[i..][1..] == ms[i + 1..];
  }

  lemma {:induction false} FastRenders(v: Json, yaml: bool)
    requires Writable(v)
    ensures Renders(Tokens(v), FastText(v, yaml))
    decreases v
  {
    hide Renders, Scalar;
    match v
    case Arr(es) =>
      ElementsRender(v, es, yaml);
      Bracket("[", ElementTokens(es), FastElements(es, yaml), "]");
    case Obj(ms) =>
      MembersRender(v, ms, yaml);
      Bracket("{", MemberTokens(ms), FastMembers(ms, yaml), "}");
    case _ => ScalarRenders(v);
  }

  lemma Bracket(open: string, ts: seq<string>, s: string, close: string)
    requires open in {"[", "{"} && close in {"]", "}"} && Renders(ts, s)
    ensures Renders([open] + ts + [close], open + s + close)
  {
    hide Renders;
    RendersToken(open);
    RendersToken(close);
    RendersConcat([open], open, ts, s);
    RendersConcat([open] + ts, open + s, [close], close);
  }

  lemma SeparatorRenders(more: bool)
    ensures Renders(Comma(more), Separator(more))
  {
    if more { RendersToken(","); } else { RendersNothing(); }
  }

  lemma {:induction false} ElementsRender(whole: Json, es: seq<Json>, yaml: bool)
    requires AllWithin(whole, es)
    ensures Renders(ElementTokens(es), FastElements(es, yaml))
    decreases whole, |es|
  {
    hide Renders, Tokens, FastText, Separator, AllWithin;
    if es == [] {
      RendersNothing();
    } else {
      SplitWithin(whole, es);
      FastRenders(es[0], yaml);
      SeparatorRenders(es[1..] != []);
      ElementsRender(whole, es[1..], yaml);
      RendersConcat(Tokens(es[0]), FastText(es[0], yaml), Comma(es[1..] != []), Separator(es[1..] != []));
      RendersConcat(Tokens(es[0]) + Comma(es[1..] != []), FastText(es[0], yaml) + Separator(es[1..] != []),
                    ElementTokens(es[1..]), FastElements(es[1..], yaml));
    }
  }

  lemma MemberRenders(m: Member, yaml: bool)
    requires Renders(Tokens(m.value), FastText(m.value, yaml))
    ensures Renders([Quoted(m.name), ":"] + Tokens(m.value), FastMember(m, yaml))
  {
    hide Renders, Escapes;
    RendersToken(Quoted(m.name));
    RendersToken(":");
    RendersConcat([Quoted(m.name)], Quoted(m.name), [":"], ":");
    assert [Quoted(m.name)] + [":"] == [Quoted(m.name), ":"];
    FirstToken(m.value);
    var blank := if yaml then " " else "";
    RendersAfterBlanks(blank, Tokens(m.value), FastText(m.value, yaml));
    RendersConcat([Quoted(m.name), ":"], Quoted(m.name) + ":", Tokens(m.value), blank + FastText(m.value, yaml));
    assert Quoted(m.name) + ":" + (blank + FastText(m.value, yaml)) == FastMember(m, yaml);
  }

  lemma {:induction false} MembersRender(whole: Json, ms: seq<Member>, yaml: bool)
    requires Within(whole, ms)
    ensures Renders(MemberTokens(ms), FastMembers(ms, yaml))
    decreases whole, |ms|
  {
    hide Renders, Tokens, FastMember, Separator;
    if ms == [] {
      RendersNothing();
    } else {
      FirstWithin(whole, ms);
      FastRenders(ms[0].value, yaml);
      MemberRenders(ms[0], yaml);
      var ts := [Quoted(ms[0].name), ":"] + Tokens(ms[0].value);
      SeparatorRenders(ms[1..] != []);
      forall m | m in ms[1..] ensures m in ms {}
      MembersRender(whole, ms[1..], yaml);
      RendersConcat(ts, FastMember(ms[0], yaml), Comma(ms[1..] != []), Separator(ms[1..] != []));
      RendersConcat(ts + Comma(ms[1..] != []), FastMember(ms[0], yaml) + Separator(ms[1..] != []),
                    MemberTokens(ms[1..]), FastMembers(ms[1..], yaml));
    }
  }

  /** What FastWriter writes, Reader reads. */
  lemma FastRoundTrip(v: Json, yaml: bool)
    requires Writable(v)
    ensures Parse(FastText(v, yaml) + "\n") == Some(Normal(v))
    ensures Parse(FastText(v, yaml) + "\n") == Some(v) <==> IsNormal(v)
  {
    FastRenders(v, yaml);
    RenderedBack(v, FastText(v, yaml));
  }

  lemma RenderedBack(v: Json, s: string)
    requires Writable(v) && Renders(Tokens(v), s)
    ensures Parse(s + "\n") == Some(Normal(v))
    ensures Parse(s + "\n") == Some(v) <==> IsNormal(v)
  {
    ConsumeMore(Tokens(v), s, "\n");
    assert "" + "\n" == "\n";
    JsonDocs.RoundTrip(v, s + "\n", "\n");
  }
}
