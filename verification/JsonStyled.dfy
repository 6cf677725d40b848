/** StyledWriter of jsoncpp/json_writer.cpp, for values without comments. Its `childValues` is one
    buffer for all levels of the recursion; whenever it is looked at, it is empty or has exactly
    one text for each element of the array at hand. */
module JsonStyled {
  import opened Options
  import CStrings
  import opened JsonText
  import opened Json
  import opened JsonWriter

  const RIGHT_MARGIN: nat := 74
  const INDENT: string := "   "

  /** One text for each element. */
  ghost predicate OneEach(es: seq<Json>, texts: seq<string>) {
    |texts| == |es| && forall i :: 0 <= i < |es| ==> Renders(Tokens(es[i]), texts[i])
  }

  ghost predicate AllSimple(es: seq<Json>) { forall i :: 0 <= i < |es| ==> Simple(es[i]) }

  class StyledWriter {
    var document: string
    var childValues: seq<string>
    var indentString: string
    var addChildValues: bool

    constructor ()
      ensures document == "" && indentString == "" && !addChildValues
    {
      document, childValues, indentString, addChildValues := "", [], "", false;
    }

    method Write(root: Json) returns (text: string)
      requires Writable(root)
      modifies this
      ensures exists s :: Renders(Tokens(root), s) && text == s + "\n"
      ensures Parse(text) == Some(Normal(root)) && (Parse(text) == Some(root) <==> IsNormal(root))
    {
      hide Renders, Tokens, Normal, IsNormal, Parse;
      document := "";
      addChildValues := false;
      indentString := "";
      ghost var s := WriteValue(root);
      assert "" + s == s;
      RenderedBack(root, s);
      document := document + "\n";
      return document;
    }

    /** pushValue. */
    method PushValue(value: string)
      modifies this`document, this`childValues
      ensures if addChildValues then childValues == old(childValues) + [value] && document == old(document)
              else document == old(document) + value && childValues == old(childValues)
    {
      if addChildValues {
        childValues := childValues + [value];
      } else {
        document := document + value;
      }
    }

    /** writeIndent: a new line, unless there is a blank or a new line already. */
    method WriteIndent() returns (ghost w: string)
      requires AllBlank(indentString)
      modifies this`document
      ensures document == old(document) + w && AllBlank(w)
    {
      w := "";
      if document != "" {
        var last := document[|document| - 1];
        if last == ' ' { return; }
        if last != '\n' {
          document := document + "\n";
          w := "\n";
        }
      }
      document := document + indentString;
      w := w + indentString;
    }

    method WriteWithIndent(value: string) returns (ghost w: string)
      requires AllBlank(indentString)
      modifies this`document
      ensures document == old(document) + (w + value) && AllBlank(w)
    {
      w := WriteIndent();
      document := document + value;
    }

    /** indent and unindent. */
    method Indent()
      modifies this`indentString
      ensures indentString == old(indentString) + INDENT
      ensures AllBlank(old(indentString)) ==> AllBlank(indentString)
    {
      indentString := indentString + INDENT;
    }

    method Unindent()
      requires |indentString| >= |INDENT|
      modifies this`indentString
      ensures indentString == old(indentString)[..|old(indentString)| - |INDENT|]
    {
      indentString := indentString[..|indentString| - |INDENT|];
    }

    /** In the middle of an array of simple values, a value goes to `childValues`; otherwise it is
        appended to the document. */
    method WriteValue(value: Json) returns (ghost s: string)
      requires Writable(value) && AllBlank(indentString) && (addChildValues ==> Simple(value))
      modifies this
      ensures addChildValues == old(addChildValues) && indentString == old(indentString)
      ensures Renders(Tokens(value), s)
      ensures if addChildValues then childValues == old(childValues) + [s] && document == old(document)
              else document == old(document) + s
      decreases value
    {
      if Simple(value) {
        var text := ScalarText(value);
        ScalarRenders(value);
        s := text;
        PushValue(text);
      } else if value.Arr? {
        s := WriteArrayValue(value, value.elements);
      } else {
        s := WriteObjectValue(value, value.members);
      }
    }

    method WriteArrayValue(value: Json, es: seq<Json>) returns (ghost s: string)
      requires value == Arr(es) && es != [] && Writable(value) && AllBlank(indentString) && !addChildValues
      modifies this
      ensures !addChildValues && indentString == old(indentString)
      ensures Renders(Tokens(value), s) && document == old(document) + s
      decreases value, 2
    {
      hide Renders, Tokens, ElementTokens, Sorted, OneEach;
      var multi := IsMultilineArray(value, es);
      if multi {
        s := WriteLines(value, es);
      } else {
        s := WriteLine(es);
      }
      ArrayTokens(es);
    }

    /** An array on several lines. */
    method WriteLines(value: Json, es: seq<Json>) returns (ghost s: string)
      requires value == Arr(es) && es != [] && Writable(value) && AllBlank(indentString) && !addChildValues
      requires childValues == [] || OneEach(es, childValues)
      modifies this
      ensures !addChildValues && indentString == old(indentString)
      ensures Renders(["["] + ElementTokens(es) + ["]"], s) && document == old(document) + s
      decreases value, 1
    {
      hide Renders, Tokens, ElementTokens, Sorted, OneEach, AllBlank, Writable;
      ghost var w := WriteWithIndent("[");
      s := w + "[";
      RendersMore([], "", w, "[") by { RendersNothing(); }
      ghost var done := ["["];
      assert [] + ["["] == ["["] && "" + (w + "[") == s && es[0..] == es;
      Indent();
      var hasChildValue := childValues != [];
      var index := 0;
      while true
        invariant 0 <= index < |es| && !addChildValues
        invariant indentString == old(indentString) + INDENT && AllBlank(indentString)
        invariant document == old(document) + s && Renders(done, s)
        invariant done + ElementTokens(es[index..]) == ["["] + ElementTokens(es)
        invariant hasChildValue ==> OneEach(es, childValues)
        decreases |es| - index
      {
        ghost var t;
        w, t := WriteElement(value, es, index, hasChildValue);
        OneElement(es, index, done, s, w, t);
        s, done := s + (w + t), done + Tokens(es[index]);
        index := index + 1;
        if index == |es| { break; }
        document := document + ",";
        s, done := s + ",", done + [","];
      }
      NoTokens(es[index..]);
      assert done + [] == done;
      Unindent();
      w := WriteWithIndent("]");
      RendersMore(done, s, w, "]");
      s := s + (w + "]");
    }

    /** An element on a line of its own: from its text, if that has been made already. */
    method WriteElement(value: Json, es: seq<Json>, index: nat, hasChildValue: bool) returns (ghost w: string, ghost t: string)
      requires value == Arr(es) && index < |es| && Writable(value) && AllBlank(indentString) && !addChildValues
      requires hasChildValue ==> OneEach(es, childValues)
      modifies this
      ensures !addChildValues && indentString == old(indentString) && (hasChildValue ==> childValues == old(childValues))
      ensures document == old(document) + (w + t) && AllBlank(w) && Renders(Tokens(es[index]), t)
      decreases value, 0
    {
      hide Renders, Tokens;
      if hasChildValue {
        t := childValues[index];
        w := WriteWithIndent(childValues[index]);
      } else {
        assert es[index] in es;
        w := WriteIndent();
        t := WriteValue(es[index]);
      }
    }

    /** An array on one line, from the texts of its elements. */
    method WriteLine(es: seq<Json>) returns (ghost s: string)
      requires es != [] && !addChildValues && OneEach(es, childValues)
      modifies this`document
      ensures Renders(["["] + ElementTokens(es) + ["]"], s) && document == old(document) + s
    {
      hide Renders, Tokens, ElementTokens;
      document := document + "[ ";
      s := "[";
      ghost var w, done := " ", ["["];
      RendersToken("[");
      assert es[0..] == es;
      for index := 0 to |es|
        invariant document == old(document) + s + w && Renders(done, s) && w == if index == 0 then " " else ""
        invariant done + (if 0 < index < |es| then [","] else []) + ElementTokens(es[index..]) == ["["] + ElementTokens(es)
      {
        if index > 0 {
          document := document + ", ";
          RendersMore(done, s, "", ",");
          s, w, done := s + ("" + ","), " ", done + [","];
        }
        document := document + childValues[index];
        OneElement(es, index, done, s, w, childValues[index]);
        s, w, done := s + (w + childValues[index]), "", done + Tokens(es[index]);
      }
      NoTokens(es[|es|..]);
      assert done + [] + [] == done;
      document := document + " ]";
      RendersMore(done, s, " ", "]");
      s := s + (" " + "]");
    }

    method WriteObjectValue(value: Json, ms: seq<Member>) returns (ghost s: string)
      requires value == Obj(ms) && ms != [] && Writable(value) && AllBlank(indentString) && !addChildValues
      modifies this
      ensures !addChildValues && indentString == old(indentString)
      ensures Renders(Tokens(value), s) && document == old(document) + s
      decreases value, 1
    {
      hide Renders, Tokens, MemberTokens, Sorted, AllBlank, Writable, Quoted;
      ghost var w := WriteWithIndent("{");
      s := w + "{";
      RendersMore([], "", w, "{") by { RendersNothing(); }
      ghost var done := ["{"];
      assert [] + ["{"] == ["{"] && "" + (w + "{") == s && ms[0..] == ms;
      Indent();
      var index := 0;
      while true
        invariant 0 <= index < |ms| && !addChildValues
        invariant indentString == old(indentString) + INDENT && AllBlank(indentString)
        invariant document == old(document) + s && Renders(done, s)
        invariant done + MemberTokens(ms[index..]) == ["{"] + MemberTokens(ms)
        decreases |ms| - index
      {
        NextMember(ms, index, done);
        s := WriteMember(value, ms, index, done, s, old(document));
        done := done + [Quoted(ms[index].name)] + [":"] + Tokens(ms[index].value);
        index := index + 1;
        if index == |ms| { break; }
        document := document + ",";
        s, done := s + ",", done + [","];
      }
      NoMemberTokens(ms[index..]);
      assert done + [] + [] == done;
      Unindent();
      w := WriteWithIndent("}");
      RendersMore(done, s, w, "}");
      s := s + (w + "}");
      ObjectTokens(ms);
    }

    /** A member on a line of its own. */
    method WriteMember(value: Json, ms: seq<Member>, index: nat, ghost done: seq<string>, ghost s: string, ghost before: string)
      returns (ghost s': string)
      requires value == Obj(ms) && index < |ms| && Writable(value) && AllBlank(indentString) && !addChildValues
      requires Renders(done, s) && document == before + s
      modifies this
      ensures !addChildValues && indentString == old(indentString) && document == before + s'
      ensures Renders(done + [Quoted(ms[index].name)] + [":"] + Tokens(ms[index].value), s')
      ensures Renders(done + [Quoted(ms[index].name)] + [":"] + Tokens(ms[index].value) + [","], s' + ",")
      decreases value, 0
    {
      hide Renders, Tokens, Sorted, Quoted;
      var m := ms[index];
      assert m in ms;
      CStrings.WholeCString(m.name);
      var name := ValueToQuotedString(m.name);
      ghost var w := WriteWithIndent(name);
      OneName(m.name, done, s, w);
      document := document + " : ";
      ghost var head := s + (w + name) + (" " + ":");
      assert document == before + head + " ";
      ghost var t := WriteValue(m.value);
      s' := head + (" " + t);
      assert document == before + s';
      OneValue(m.value, done + [Quoted(m.name)] + [":"], head, " ", t);
    }

    /** isMultineArray: whether an array goes on several lines. If that is decided by the length of
        its line, the texts of its elements are left in `childValues`, and else nothing is. */
    method IsMultilineArray(value: Json, es: seq<Json>) returns (multi: bool)
      requires value == Arr(es) && es != [] && Writable(value) && AllBlank(indentString) && !addChildValues
      modifies this
      ensures !addChildValues && indentString == old(indentString) && document == old(document)
      ensures childValues == [] || OneEach(es, childValues)
      ensures !multi ==> childValues != []
      decreases value, 0
    {
      hide Renders, Tokens, Sorted;
      multi := |es| * 3 >= RIGHT_MARGIN;
      childValues := [];
      var i := 0;
      while i < |es| && !multi
        invariant 0 <= i <= |es| && (multi || AllSimple(es[..i]))
      {
        multi := !Simple(es[i]);
        i := i + 1;
      }
      assert es[..|es|] == es;
      if !multi {
        addChildValues := true;
        var lineLength := 4 + (|es| - 1) * 2;
        for index := 0 to |es|
          invariant addChildValues && indentString == old(indentString) && document == old(document)
          invariant OneEach(es[..index], childValues) && AllSimple(es)
        {
          assert es[index] in es;
          ghost var texts := childValues;
          ghost var s := WriteValue(es[index]);
          OneMore(es, index, texts, childValues, s);
          lineLength := lineLength + |childValues[index]|;
        }
        addChildValues := false;
        multi := lineLength >= RIGHT_MARGIN;
      }
    }
  }

  lemma OneMore(es: seq<Json>, i: nat, texts: seq<string>, texts': seq<string>, s: string)
    requires i < |es|
    ensures OneEach(es[..i], texts) && Renders(Tokens(es[i]), s) && texts' == texts + [s] ==> OneEach(es[..i + 1], texts')
  {
    hide Renders, Tokens;
  }

  lemma ArrayTokens(es: seq<Json>)
    ensures Tokens(Arr(es)) == ["["] + ElementTokens(es) + ["]"]
  {
  }

  lemma NoTokens(es: seq<Json>)
    requires es == []
    ensures ElementTokens(es) == []
  {
  }

  lemma NextTokens(es: seq<Json>, i: nat)
    requires i < |es|
    ensures ElementTokens(es[i..]) == Tokens(es[i]) + (if i + 1 < |es| then [","] else []) + ElementTokens(es[i + 1..])
  {
    hide Tokens;
    assert es[i..][0] == es[i] && es[i..][1..] == es[i + 1..];
  }

  /** One more element, and perhaps a comma behind it. */
  lemma OneElement(es: seq<Json>, i: nat, done: seq<string>, s: string, w: string, t: string)
    requires i < |es| && Renders(done, s) && AllBlank(w) && Renders(Tokens(es[i]), t)
    ensures Renders(done + Tokens(es[i]), s + (w + t))
    ensures Renders(done + Tokens(es[i]) + [","], s + (w + t) + ",")
    ensures done + ElementTokens(es[i..])
         == done + Tokens(es[i]) + (if i + 1 < |es| then [","] else []) + ElementTokens(es[i + 1..])
  {
    hide Renders, Tokens, ElementTokens;
    NextTokens(es, i);
    OneValue(es[i], done, s, w, t);
    var comma := if i + 1 < |es| then [","] else [];
    Associate(done, Tokens(es[i]), comma, ElementTokens(es[i + 1..]));
  }

  lemma Associate(a: seq<string>, b: seq<string>, c: seq<string>, d: seq<string>)
    ensures a + (b + c + d) == a + b + c + d
  {
  }

  /** One more value, and perhaps a comma behind it. */
  lemma OneValue(v: Json, done: seq<string>, s: string, w: string, t: string)
    requires Renders(done, s) && AllBlank(w) && Renders(Tokens(v), t)
    ensures Renders(done + Tokens(v), s + (w + t))
    ensures Renders(done + Tokens(v) + [","], s + (w + t) + ",")
  {
    hide Renders, Tokens;
    assert Tokens(v) != [] by { FirstToken(v); }
    RendersAfterBlanks(w, Tokens(v), t);
    RendersConcat(done, s, Tokens(v), w + t);
    RendersToken(",");
    RendersConcat(done + Tokens(v), s + (w + t), [","], ",");
  }

  lemma ObjectTokens(ms: seq<Member>)
    ensures Tokens(Obj(ms)) == ["{"] + MemberTokens(ms) + ["}"]
  {
  }

  lemma NoMemberTokens(ms: seq<Member>)
    requires ms == []
    ensures MemberTokens(ms) == []
  {
  }

  lemma NextMember(ms: seq<Member>, i: nat, done: seq<string>)
    requires i < |ms|
    ensures done + MemberTokens(ms[i..])
         == done + [Quoted(ms[i].name)] + [":"] + Tokens(ms[i].value) + (if i + 1 < |ms| then [","] else [])
            + MemberTokens(ms[i + 1..])
  {
    hide Tokens, Quoted;
    assert ms[i..][0] == ms[i] && ms[i..][1..] == ms[i + 1..];
    assert [Quoted(ms[i].name), ":"] == [Quoted(ms[i].name)] + [":"];
    var comma := if i + 1 < |ms| then [","] else [];
    Associate(done, [Quoted(ms[i].name)] + [":"] + Tokens(ms[i].value), comma, MemberTokens(ms[i + 1..]));
    Associate(done, [Quoted(ms[i].name)], [":"], Tokens(ms[i].value));
  }

  /** A name and its colon. */
  lemma OneName(name: string, done: seq<string>, s: string, w: string)
    requires Renders(done, s) && AllBlank(w)
    ensures Renders(done + [Quoted(name)] + [":"], s + (w + Quoted(name)) + (" " + ":"))
  {
    hide Renders, Escapes;
    RendersMore(done, s, w, Quoted(name));
    RendersMore(done + [Quoted(name)], s + (w + Quoted(name)), " ", ":");
  }
}
