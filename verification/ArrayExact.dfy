/**
 Exactly which texts are arrays of which elements: quoted elements with any escapes, bare
 ones up to the next comma, and nothing after a last comma.
 */
module ArrayExact {
  import opened Base
  import opened ArrayText

  /** The text is a quoted form of the string, without its opening quote, and `tail` follows it. */
  ghost predicate QuotedText(text: string, s: string, tail: string) {
    exists escaped: seq<bool> :: |escaped| == |s| && text == Escape(s, escaped) + ("\"" + tail)
  }

  lemma {:induction false} QuotedExactly(text: string, s: string, tail: string)
    ensures Quoted(text) == Some((s, tail)) <==> QuotedText(text, s, tail)
  {
    if Quoted(text) == Some((s, tail)) {
      var escaped := EscapesOf(text, s, tail);
    }
    if QuotedText(text, s, tail) {
      var escaped: seq<bool> :| |escaped| == |s| && text == Escape(s, escaped) + ("\"" + tail);
      QuotedReadsBack(s, escaped, tail);
    }
  }

  lemma {:induction false} EscapesOf(text: string, s: string, tail: string) returns (escaped: seq<bool>)
    requires Quoted(text) == Some((s, tail))
    ensures |escaped| == |s| && text == Escape(s, escaped) + ("\"" + tail)
  {
    if text[0] == '"' {
      escaped := [];
      assert text == ['"'] + text[1..];
      assert Escape(s, []) == "";
      assert "\"" == ['"'];
    } else if text[0] == '\\' {
      escaped := EscapesOf(text[2..], s[1..], tail);
      assert text == ['\\', s[0]] + text[2..];
      escaped := [true] + escaped;
      assert Escape(s, escaped) == ['\\', s[0]] + Escape(s[1..], escaped[1..]);
    } else {
      escaped := EscapesOf(text[1..], s[1..], tail);
      assert text == [s[0]] + text[1..];
      escaped := [false] + escaped;
      assert Escape(s, escaped) == [s[0]] + Escape(s[1..], escaped[1..]);
    }
  }

  /** A bare text: no comma in it, and no quote at its start. */
  predicate BareText(raw: string) {
    ',' !in raw && (raw == "" || raw[0] != '"')
  }

  /** The text begins with a form of the element, and `tail` follows it. */
  ghost predicate ElementText(text: string, e: Option<string>, tail: string) {
    || (text != "" && text[0] == '"' && e.Some? && QuotedText(text[1..], e.value, tail))
    || (exists raw: string :: text == raw + tail && BareText(raw) && (tail == "" || tail[0] == ',') && e == if raw == "NULL" then None else Some(raw))
  }

  lemma {:induction false} UnquotedExactly(text: string, raw: string, tail: string)
    ensures Unquoted(text) == (raw, tail) <==> text == raw + tail && ',' !in raw && (tail == "" || tail[0] == ',')
  {
    if text == raw + tail && ',' !in raw && (tail == "" || tail[0] == ',') {
      BareReadsBack(raw, tail);
    }
    UnquotedShape(text);
  }

  lemma {:induction false} UnquotedShape(text: string)
    ensures var (raw, tail) := Unquoted(text); ',' !in raw && (tail == "" || tail[0] == ',')
  {
    if text != [] && text[0] != ',' {
      UnquotedShape(text[1..]);
    }
  }

  lemma FirstExactly(text: string, e: Option<string>, tail: string)
    requires text != ""
    ensures First(text) == Some((e, tail)) <==> ElementText(text, e, tail)
  {
    if text[0] == '"' {
      if e.Some? {
        QuotedExactly(text[1..], e.value, tail);
      }
      forall raw: string | text == raw + tail && BareText(raw) && (tail == "" || tail[0] == ',') ensures false {
        QuoteIsNotBare(text, raw, tail);
      }
    } else {
      var (raw, rest) := Unquoted(text);
      UnquotedExactly(text, raw, rest);
      if First(text) == Some((e, tail)) {
        assert raw == "" || raw[0] == text[0];
      }
      if ElementText(text, e, tail) {
        var raw': string :| text == raw' + tail && BareText(raw') && (tail == "" || tail[0] == ',') && e == if raw' == "NULL" then None else Some(raw');
        UnquotedExactly(text, raw', tail);
      }
    }
  }

  lemma QuoteIsNotBare(text: string, raw: string, tail: string)
    requires text != "" && text[0] == '"' && text == raw + tail && (tail == "" || tail[0] == ',')
    ensures !BareText(raw)
  {
    assert text[0] == (raw + tail)[0];
  }

  /** The text lists the elements, with commas between them; a comma at the end is allowed. */
  ghost predicate ElementsText(text: string, es: Elements)
    decreases |text|
  {
    if text == "" then es == []
    else
      && es != []
      && ((ElementText(text, es[0], "") && es[1..] == [])
          || exists rest: string :: |rest| < |text| && ElementText(text, es[0], "," + rest) && ElementsText(rest, es[1..]))
  }

  /** What parsing does after a first element. */
  lemma ParseStep(text: string, e: Option<string>, tail: string)
    requires text != "" && First(text) == Some((e, tail))
    ensures tail == "" ==> ParseElements(text) == Some([e])
    ensures tail != "" && tail[0] != ',' ==> ParseElements(text) == None
    ensures tail != "" && tail[0] == ',' ==>
              ParseElements(text) == var others := ParseElements(tail[1..]); if others.Some? then Some([e] + others.value) else None
  {
  }

  lemma {:induction false} ParsedIsText(text: string, es: Elements)
    requires ParseElements(text) == Some(es)
    ensures ElementsText(text, es)
    decreases |text|
  {
    if text != "" {
      var (e, tail) := First(text).value;
      FirstExactly(text, e, tail);
      ParseStep(text, e, tail);
      if tail != "" {
        var others := ParseElements(tail[1..]).value;
        ParsedIsText(tail[1..], others);
        assert tail == "," + tail[1..] && es[1..] == others;
      }
    }
  }

  lemma {:induction false} TextIsParsed(text: string, es: Elements)
    requires ElementsText(text, es)
    ensures ParseElements(text) == Some(es)
    decreases |text|
  {
    if text != "" {
      assert es == [es[0]] + es[1..];
      if ElementText(text, es[0], "") && es[1..] == [] {
        FirstExactly(text, es[0], "");
        ParseStep(text, es[0], "");
        assert es == [es[0]];
      } else {
        var rest: string :| |rest| < |text| && ElementText(text, es[0], "," + rest) && ElementsText(rest, es[1..]);
        FirstExactly(text, es[0], "," + rest);
        ParseStep(text, es[0], "," + rest);
        var tail := "," + rest;
        assert tail[0] == ',' && tail[1..] == rest;
        TextIsParsed(rest, es[1..]);
        assert ParseElements(tail[1..]) == Some(es[1..]);
      }
    }
  }

  lemma ElementsExactly(text: string, es: Elements)
    ensures ParseElements(text) == Some(es) <==> ElementsText(text, es)
  {
    if ParseElements(text) == Some(es) {
      ParsedIsText(text, es);
    }
    if ElementsText(text, es) {
      TextIsParsed(text, es);
    }
  }

  lemma Braces(text: string, inner: string)
    ensures text == "{" + (inner + "}") <==> |text| >= 2 && text[0] == '{' && text[|text| - 1] == '}' && text[1..|text| - 1] == inner
  {
    var braced := "{" + (inner + "}");
    assert braced[1..|braced| - 1] == inner && braced[0] == '{' && braced[|braced| - 1] == '}';
    if |text| >= 2 && text[0] == '{' && text[|text| - 1] == '}' && text[1..|text| - 1] == inner {
      assert text == [text[0]] + (text[1..|text| - 1] + [text[|text| - 1]]);
      assert "{" == ['{'] && "}" == ['}'];
    }
  }

  ghost predicate ArrayOf(text: string, inner: string, es: Elements) {
    text == "{" + (inner + "}") && ElementsText(inner, es)
  }

  /** A text is read as a list of elements exactly if it lists them between braces. */
  lemma ArrayExactly(text: string, es: Elements)
    ensures ParseArray(text) == Some(es) <==> exists inner: string :: ArrayOf(text, inner, es)
  {
    if ParseArray(text) == Some(es) {
      var inner := text[1..|text| - 1];
      Braces(text, inner);
      ElementsExactly(inner, es);
      assert ArrayOf(text, inner, es);
    }
    if inner: string :| ArrayOf(text, inner, es) {
      Braces(text, inner);
      ElementsExactly(inner, es);
    }
  }
}
