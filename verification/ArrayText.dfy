/**
 PostgreSQL array literals of one dimension: `parse_pg_array` of
 `crates/zero-cache-change-source/src/pg_to_change.rs`, and a printer after section 8.15.6
 (Array Input and Output Syntax) of the PostgreSQL documentation.
 */
module ArrayText {
  import opened Base

  type Elements = seq<Option<string>>

  // ---- The parser as a function ----------------------------------------------

  /** The text of a quoted element after its opening quote, and what follows its closing quote. */
  function Quoted(s: string): (r: Option<(string, string)>)
    ensures r.Some? ==> |r.value.0| + |r.value.1| < |s|
  {
    if s == [] then None
    else if s[0] == '"' then Some(("", s[1..]))
    else if s[0] == '\\' then
      if |s| < 2 then None
      else
        var rest :- Quoted(s[2..]);
        Some(([s[1]] + rest.0, rest.1))
    else
      var rest :- Quoted(s[1..]);
      Some(([s[0]] + rest.0, rest.1))
  }

  /** A bare element up to the next comma, and what follows it. */
  function Unquoted(s: string): (r: (string, string))
    ensures r.0 + r.1 == s
  {
    if s == [] || s[0] == ',' then ("", s)
    else
      var rest := Unquoted(s[1..]);
      ([s[0]] + rest.0, rest.1)
  }

  function BareElement(raw: string): Option<string> {
    if raw == "NULL" then None else Some(raw)
  }

  /** The first element and what follows it; none if it is malformed. */
  function First(s: string): (r: Option<(Option<string>, string)>)
    requires s != []
    ensures r.Some? ==> |r.value.1| < |s| || (r.value.1 == s && s[0] == ',')
  {
    if s[0] == '"' then
      var (text, rest) :- Quoted(s[1..]);
      Some((Some(text), rest))
    else
      var (raw, rest) := Unquoted(s);
      Some((BareElement(raw), rest))
  }

  function ParseElements(s: string): Option<Elements>
    decreases |s|
  {
    if s == [] then Some([])
    else
      var (element, rest) :- First(s);
      if rest == [] then Some([element])
      else if rest[0] != ',' then None
      else
        var others :- ParseElements(rest[1..]);
        Some([element] + others)
  }

  function ParseArray(text: string): Option<Elements> {
    if |text| < 2 || text[0] != '{' || text[|text| - 1] != '}' then None
    else ParseElements(text[1..|text| - 1])
  }

  // ---- The parser as loops ---------------------------------------------------

  lemma Step(s: string, i: nat)
    requires i < |s|
    ensures s[i..] != [] && s[i..][0] == s[i] && s[i..][1..] == s[i + 1..]
    ensures i + 1 < |s| ==> |s[i..]| >= 2 && s[i..][1] == s[i + 1] && s[i..][2..] == s[i + 2..]
  {
  }

  /** The text so far, with what the rest of a quoted element adds. */
  ghost function QuotedThen(text: string, rest: Option<(string, string)>): Option<(string, string)> {
    if rest.Some? then Some((text + rest.value.0, rest.value.1)) else None
  }

  lemma QuotedOne(text: string, c: char, rest: Option<(string, string)>)
    ensures QuotedThen(text + [c], rest) == QuotedThen(text, if rest.Some? then Some(([c] + rest.value.0, rest.value.1)) else None)
  {
    if rest.Some? {
      assert (text + [c]) + rest.value.0 == text + ([c] + rest.value.0);
    }
  }

  lemma NothingQuoted(rest: Option<(string, string)>)
    ensures QuotedThen("", rest) == rest
  {
    assert rest.Some? ==> "" + rest.value.0 == rest.value.0;
  }

  lemma PlainCharacter(chars: string, i: nat, text: string)
    requires i < |chars| && !MustEscape(chars[i])
    ensures QuotedThen(text, Quoted(chars[i..])) == QuotedThen(text + [chars[i]], Quoted(chars[i + 1..]))
  {
    Step(chars, i);
    QuotedOne(text, chars[i], Quoted(chars[i + 1..]));
  }

  lemma EscapedCharacter(chars: string, i: nat, text: string)
    requires i + 1 < |chars| && chars[i] == '\\'
    ensures QuotedThen(text, Quoted(chars[i..])) == QuotedThen(text + [chars[i + 1]], Quoted(chars[i + 2..]))
  {
    Step(chars, i);
    QuotedOne(text, chars[i + 1], Quoted(chars[i + 2..]));
  }

  lemma ClosingQuote(chars: string, i: nat, text: string)
    requires i < |chars| && chars[i] == '"'
    ensures QuotedThen(text, Quoted(chars[i..])) == Some((text, chars[i + 1..]))
  {
    Step(chars, i);
    assert text + "" == text;
  }

  lemma NoClosingQuote(chars: string, i: nat, text: string)
    requires i == |chars| || (i + 1 == |chars| && chars[i] == '\\')
    ensures QuotedThen(text, Quoted(chars[i..])) == None
  {
  }

  method ScanQuoted(chars: string, start: nat) returns (r: Option<(string, nat)>)
    requires start <= |chars|
    ensures r.Some? ==> start < r.value.1 <= |chars| && Quoted(chars[start..]) == Some((r.value.0, chars[r.value.1..]))
    ensures r.None? ==> Quoted(chars[start..]) == None
  {
    var i, text := start, "";
    ghost var whole := Quoted(chars[start..]);
    NothingQuoted(whole);
    while i < |chars| && chars[i] != '"'
      invariant start <= i <= |chars|
      invariant whole == QuotedThen(text, Quoted(chars[i..]))
    {
      if chars[i] == '\\' {
        if i + 1 < |chars| {
          EscapedCharacter(chars, i, text);
        } else {
          NoClosingQuote(chars, i, text);
        }
        i := i + 1;
        if i >= |chars| {
          return None;
        }
      } else {
        PlainCharacter(chars, i, text);
      }
      text := text + [chars[i]];
      i := i + 1;
    }
    if i >= |chars| {
      NoClosingQuote(chars, i, text);
      return None;
    }
    ClosingQuote(chars, i, text);
    r := Some((text, i + 1));
  }

  lemma {:induction false} UpToComma(s: string, k: nat)
    requires k <= |s| && (forall i | 0 <= i < k :: s[i] != ',') && (k < |s| ==> s[k] == ',')
    ensures Unquoted(s) == (s[..k], s[k..])
  {
    if k > 0 {
      UpToComma(s[1..], k - 1);
      assert [s[0]] + s[1..][..k - 1] == s[..k] && s[1..][k - 1..] == s[k..];
    }
  }

  method ScanBare(chars: string, start: nat) returns (i: nat)
    requires start <= |chars|
    ensures start <= i <= |chars| && Unquoted(chars[start..]) == (chars[start..i], chars[i..])
  {
    i := start;
    while i < |chars| && chars[i] != ','
      invariant start <= i <= |chars| && forall k | start <= k < i :: chars[k] != ','
    {
      i := i + 1;
    }
    UpToComma(chars[start..], i - start);
    assert chars[start..][..i - start] == chars[start..i] && chars[start..][i - start..] == chars[i..];
  }

  /** One element from a position, and where it ends. */
  method ScanElement(chars: string, start: nat) returns (r: Option<(Option<string>, nat)>)
    requires start < |chars|
    ensures r.Some? ==> start <= r.value.1 <= |chars| && First(chars[start..]) == Some((r.value.0, chars[r.value.1..]))
    ensures r.None? ==> First(chars[start..]) == None
  {
    Step(chars, start);
    if chars[start] == '"' {
      var quoted := ScanQuoted(chars, start + 1);
      r := if quoted.Some? then Some((Some(quoted.value.0), quoted.value.1)) else None;
    } else {
      var i := ScanBare(chars, start);
      var raw := chars[start..i];
      r := Some((if raw == "NULL" then None else Some(raw), i));
    }
  }

  ghost function ElementsThen(elements: Elements, rest: Option<Elements>): Option<Elements> {
    if rest.Some? then Some(elements + rest.value) else None
  }

  lemma ElementsOne(elements: Elements, e: Option<string>, rest: Option<Elements>)
    ensures ElementsThen(elements + [e], rest) == ElementsThen(elements, if rest.Some? then Some([e] + rest.value) else None)
  {
    if rest.Some? {
      assert (elements + [e]) + rest.value == elements + ([e] + rest.value);
    }
  }

  lemma ElementBeforeMore(chars: string, i: nat, elements: Elements, element: Option<string>, end: nat)
    requires i < |chars| && end < |chars| && First(chars[i..]) == Some((element, chars[end..]))
    ensures ElementsThen(elements, ParseElements(chars[i..]))
         == if chars[end] == ',' then ElementsThen(elements + [element], ParseElements(chars[end + 1..])) else None
  {
    Step(chars, end);
    ElementsOne(elements, element, ParseElements(chars[end + 1..]));
  }

  lemma LastElement(chars: string, i: nat, elements: Elements, element: Option<string>)
    requires i < |chars| && First(chars[i..]) == Some((element, chars[|chars|..]))
    ensures ElementsThen(elements, ParseElements(chars[i..])) == ElementsThen(elements + [element], ParseElements(chars[|chars|..]))
  {
    ElementsOne(elements, element, Some([]));
    assert chars[|chars|..] == [] && [element] + [] == [element];
  }

  lemma Malformed(chars: string, i: nat, elements: Elements)
    requires i < |chars| && First(chars[i..]) == None
    ensures ElementsThen(elements, ParseElements(chars[i..])) == None
  {
  }

  lemma NoElements(chars: string)
    ensures ElementsThen([], ParseElements(chars[0..])) == ParseElements(chars)
  {
    assert chars[0..] == chars;
    var whole := ParseElements(chars);
    assert whole.Some? ==> [] + whole.value == whole.value;
  }

  lemma AllElements(chars: string, elements: Elements)
    ensures ElementsThen(elements, ParseElements(chars[|chars|..])) == Some(elements)
  {
    assert chars[|chars|..] == [] && elements + [] == elements;
  }

  method ParsePgArray(text: string) returns (r: Option<Elements>)
    ensures r == ParseArray(text)
  {
    if |text| < 2 || text[0] != '{' || text[|text| - 1] != '}' {
      return None;
    }
    r := ParseInner(text[1..|text| - 1]);
  }

  /** One element and the comma after it. */
  method NextElement(chars: string, i: nat, elements: Elements) returns (ok: bool, elements': Elements, i': nat)
    requires i < |chars|
    ensures ok ==> i < i' <= |chars|
    ensures ok ==> ElementsThen(elements', ParseElements(chars[i'..])) == ElementsThen(elements, ParseElements(chars[i..]))
    ensures !ok ==> ElementsThen(elements, ParseElements(chars[i..])) == None
  {
    ok, elements', i' := false, elements, i;
    var first := ScanElement(chars, i);
    if first.None? {
      Malformed(chars, i, elements);
      return;
    }
    var element, end := first.value.0, first.value.1;
    if end < |chars| {
      ElementBeforeMore(chars, i, elements, element, end);
      if chars[end] != ',' {
        return;
      }
      end := end + 1;
    } else {
      LastElement(chars, i, elements, element);
    }
    ok, elements', i' := true, elements + [element], end;
  }

  method ParseInner(chars: string) returns (r: Option<Elements>)
    ensures r == ParseElements(chars)
  {
    var elements: Elements, i := [], 0;
    ghost var whole := ParseElements(chars);
    NoElements(chars);
    while i < |chars|
      invariant i <= |chars| && whole == ElementsThen(elements, ParseElements(chars[i..]))
    {
      var ok;
      ok, elements, i := NextElement(chars, i, elements);
      if !ok {
        return None;
      }
    }
    AllElements(chars, elements);
    r := Some(elements);
  }

  // ---- A printer -------------------------------------------------------------

  /** How an element is written: as it is, or in quotes with a backslash before the marked characters too. */
  datatype Style = Bare | InQuotes(escaped: seq<bool>)

  /** Characters that a backslash must precede inside quotes. */
  predicate MustEscape(c: char) {
    c == '"' || c == '\\'
  }

  function Escape(s: string, escaped: seq<bool>): string
    requires |escaped| == |s|
  {
    if s == [] then []
    else (if escaped[0] || MustEscape(s[0]) then ['\\', s[0]] else [s[0]]) + Escape(s[1..], escaped[1..])
  }

  predicate IsSpace(c: char) {
    c == ' ' || c == '\t' || c == '\n' || c == '\r' || c == 11 as char || c == 12 as char
  }

  function Lower(c: char): char {
    if 'A' <= c <= 'Z' then ((c as int) + 32) as char else c
  }

  predicate MatchesNull(s: string) {
    |s| == 4 && Lower(s[0]) == 'n' && Lower(s[1]) == 'u' && Lower(s[2]) == 'l' && Lower(s[3]) == 'l'
  }

  /** What section 8.15.6 requires to be quoted. */
  predicate NeedsQuotes(s: string) {
    s == "" || MatchesNull(s)
    || exists i | 0 <= i < |s| :: s[i] in ['{', '}', ',', '"', '\\'] || IsSpace(s[i])
  }

  /** What the parser reads back without quotes. */
  predicate ReadsBare(s: string) {
    s != "" && s != "NULL" && s[0] != '"' && ',' !in s
  }

  lemma UnquotedReadsBare(s: string)
    requires !NeedsQuotes(s)
    ensures ReadsBare(s)
  {
    assert s[0] !in ['{', '}', ',', '"', '\\'];
    assert forall i | 0 <= i < |s| :: s[i] !in ['{', '}', ',', '"', '\\'];
  }

  predicate Legal(e: Option<string>, style: Style) {
    e.Some? ==> if style.Bare? then !NeedsQuotes(e.value) else |style.escaped| == |e.value|
  }

  function PrintElement(e: Option<string>, style: Style): string
    requires Legal(e, style)
  {
    match e
    case None => "NULL"
    case Some(s) => if style.Bare? then s else "\"" + (Escape(s, style.escaped) + "\"")
  }

  predicate AllLegal(elements: Elements, styles: seq<Style>) {
    |styles| == |elements| && forall i | 0 <= i < |elements| :: Legal(elements[i], styles[i])
  }

  function PrintElements(elements: Elements, styles: seq<Style>): string
    requires AllLegal(elements, styles)
  {
    if elements == [] then ""
    else if |elements| == 1 then PrintElement(elements[0], styles[0])
    else PrintElement(elements[0], styles[0]) + ("," + PrintElements(elements[1..], styles[1..]))
  }

  function PrintArray(elements: Elements, styles: seq<Style>): string
    requires AllLegal(elements, styles)
  {
    "{" + (PrintElements(elements, styles) + "}")
  }

  // ---- Reading back ----------------------------------------------------------

  lemma {:induction false} QuotedReadsBack(s: string, escaped: seq<bool>, tail: string)
    requires |escaped| == |s|
    ensures Quoted(Escape(s, escaped) + ("\"" + tail)) == Some((s, tail))
  {
    var text := Escape(s, escaped) + ("\"" + tail);
    if s == [] {
      assert text == "\"" + tail;
      assert text[1..] == tail;
    } else {
      var rest := Escape(s[1..], escaped[1..]) + ("\"" + tail);
      QuotedReadsBack(s[1..], escaped[1..], tail);
      if escaped[0] || MustEscape(s[0]) {
        assert text == ['\\', s[0]] + rest;
        assert text[2..] == rest;
      } else {
        assert text == [s[0]] + rest;
        assert text[1..] == rest;
      }
      assert [s[0]] + s[1..] == s;
    }
  }

  lemma BareReadsBack(s: string, tail: string)
    requires ',' !in s && (tail == "" || tail[0] == ',')
    ensures Unquoted(s + tail) == (s, tail)
  {
    forall i | 0 <= i < |s| ensures (s + tail)[i] != ',' {
      assert (s + tail)[i] in s;
    }
    UpToComma(s + tail, |s|);
    assert (s + tail)[..|s|] == s && (s + tail)[|s|..] == tail;
  }

  lemma QuotedElement(s: string, escaped: seq<bool>, tail: string)
    requires |escaped| == |s|
    ensures First("\"" + (Escape(s, escaped) + "\"") + tail) == Some((Some(s), tail))
  {
    QuotedReadsBack(s, escaped, tail);
    Surrounded(Escape(s, escaped), tail);
  }

  lemma Surrounded(inner: string, tail: string)
    ensures var text := "\"" + (inner + "\"") + tail; text[0] == '"' && text[1..] == inner + ("\"" + tail)
  {
  }

  lemma UnquotedElement(s: string, tail: string)
    requires s != "" && s[0] != '"' && ',' !in s && (tail == "" || tail[0] == ',')
    ensures First(s + tail) == Some((BareElement(s), tail))
  {
    BareReadsBack(s, tail);
  }

  lemma ElementReadsBack(e: Option<string>, style: Style, tail: string)
    requires Legal(e, style) && (tail == "" || tail[0] == ',')
    ensures PrintElement(e, style) != "" && First(PrintElement(e, style) + tail) == Some((e, tail))
  {
    if e.Some? && style.InQuotes? {
      QuotedElement(e.value, style.escaped, tail);
    } else {
      if e.Some? {
        UnquotedReadsBare(e.value);
      }
      UnquotedElement(PrintElement(e, style), tail);
    }
  }

  lemma {:induction false} ElementsReadBack(elements: Elements, styles: seq<Style>)
    requires AllLegal(elements, styles)
    ensures ParseElements(PrintElements(elements, styles)) == Some(elements)
  {
    if |elements| == 1 {
      ElementReadsBack(elements[0], styles[0], "");
      assert PrintElement(elements[0], styles[0]) + "" == PrintElement(elements[0], styles[0]);
      assert [elements[0]] == elements;
    } else if elements != [] {
      var rest := PrintElements(elements[1..], styles[1..]);
      ElementReadsBack(elements[0], styles[0], "," + rest);
      ElementsReadBack(elements[1..], styles[1..]);
      assert ("," + rest)[1..] == rest;
      assert [elements[0]] + elements[1..] == elements;
    }
  }

  /** Every list of optional strings reads back from every legal way of writing it. */
  lemma ArrayReadsBack(elements: Elements, styles: seq<Style>)
    requires AllLegal(elements, styles)
    ensures ParseArray(PrintArray(elements, styles)) == Some(elements)
  {
    ElementsReadBack(elements, styles);
    var s, text := PrintElements(elements, styles), PrintArray(elements, styles);
    assert text[0] == '{' && text[|text| - 1] == '}' && text[1..|text| - 1] == s;
  }

  /** So what is written determines the list: a quoted "NULL" is never a null. */
  lemma PrintingIsInjective(a: Elements, s: seq<Style>, b: Elements, t: seq<Style>)
    requires AllLegal(a, s) && AllLegal(b, t) && PrintArray(a, s) == PrintArray(b, t)
    ensures a == b
  {
    ArrayReadsBack(a, s);
    ArrayReadsBack(b, t);
  }

  lemma CommaSplits(s: string)
    requires ',' in s
    ensures Unquoted(s).1 != "" && |Unquoted(s).0| < |s|
  {
    var i :| 0 <= i < |s| && s[i] == ',';
    var k := FirstComma(s, i);
    UpToComma(s, k);
  }

  lemma FirstComma(s: string, i: nat) returns (k: nat)
    requires i < |s| && s[i] == ','
    ensures k <= i && s[k] == ',' && forall j | 0 <= j < k :: s[j] != ','
  {
    k := 0;
    while s[k] != ','
      invariant k <= i && forall j | 0 <= j < k :: s[j] != ','
      decreases i - k
    {
      k := k + 1;
    }
  }

  lemma QuotedIsNotItself(s: string)
    requires s != "" && s[0] == '"'
    ensures ParseElements(s) != Some([Some(s)])
  {
    var first := First(s);
    if first.Some? {
      assert |first.value.0.value| < |s|;
      assert ParseElements(s).Some? ==> ParseElements(s).value[0] == first.value.0;
    }
  }

  /** Unquoted, exactly these texts read back as themselves. */
  lemma BareArrayReadsBackExactly(s: string)
    ensures ParseArray("{" + (s + "}")) == Some([Some(s)]) <==> ReadsBare(s)
  {
    var text := "{" + (s + "}");
    assert text[0] == '{' && text[|text| - 1] == '}' && text[1..|text| - 1] == s;
    if s != "" && s[0] == '"' {
      QuotedIsNotItself(s);
    } else if s != "" {
      if ',' in s {
        CommaSplits(s);
        assert ParseElements(s).Some? ==> ParseElements(s).value[0] == BareElement(Unquoted(s).0);
      } else {
        BareReadsBack(s, "");
        assert s + "" == s;
      }
    }
  }
}
