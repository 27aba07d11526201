/**
 What the conservative scanner refuses and how it reads unquoted attributes
 (apps/web/public/sw.js: `parseConservativeHtmlTag`, `findRawTextElementEnd`,
 `conservativeHtmlStartTags`): wherever in a document it happens, the whole document is refused.
 */
module HtmlRejections {
  import opened Wrappers
  import opened HtmlScanner
  import opened HtmlRoundTrip

  // ----- Attributes

  /** The characters that end a tag name, an attribute name and an unquoted value. */
  lemma DelimitersAre(c: char)
    ensures IsSpace(c) <==> c in {' ', '\t', '\n', '\U{000C}', '\r'}
    ensures EndsTagName(c) <==> IsSpace(c) || c in {'/', '>'}
    ensures EndsAttributeName(c) <==> IsSpace(c) || c in {'/', '>', '='}
    ensures EndsBareValue(c) <==> IsSpace(c) || c == '>'
  {
  }

  /** Only the letters A to Z change, each to its own lower-case letter. */
  lemma LowerCaseIs(c: char)
    ensures 'A' <= c <= 'Z' ==> 'a' <= LowerChar(c) <= 'z' && LowerChar(c) as int - 'a' as int == c as int - 'A' as int
    ensures !('A' <= c <= 'Z') ==> LowerChar(c) == c
  {
  }

  /** An unquoted value goes up to the next space or the end of the tag. */
  lemma ParsesBareValue(value: string, rest: string)
    requires value != "" && value[0] != '"' && value[0] != '\''
    requires forall i | 0 <= i < |value| :: value[i] !in {' ', '\t', '\n', '\U{000C}', '\r', '>'}
    requires rest != "" ==> rest[0] in {' ', '\t', '\n', '\U{000C}', '\r', '>'}
    ensures ParseValue("=" + (value + rest)) == Some((value, rest))
  {
    var v := value + rest;
    Split("=", v);
    NoSpacesToSkip(v);
    assert Without(value, EndsBareValue);
    SpanOver(value, rest, EndsBareValue);
    Split(value, rest);
    hide DropSpaces, Span;
  }

  lemma NoSpacesToSkip(v: string)
    requires v != "" && !IsSpace(v[0])
    ensures DropSpaces(v) == v
  {
    assert v == "" + v;
    SkipsSpaces("", v);
  }

  /** A name without a value has the empty one. */
  lemma ParsesNoValue(rest: string)
    requires rest == "" || rest[0] != '='
    ensures ParseValue(rest) == Some(("", rest))
  {
  }

  /** Two attributes have the same name, letter case aside, or one is known already. */
  ghost predicate Repeats(m: map<string, string>, attributes: seq<Attribute>) {
    || (exists i :: 0 <= i < |attributes| && Lower(attributes[i].name) in m)
    || (exists i, j :: 0 <= i < j < |attributes| && Lower(attributes[i].name) == Lower(attributes[j].name))
  }

  lemma RepeatsFrom(m: map<string, string>, attributes: seq<Attribute>)
    requires attributes != []
    ensures var a, rest := attributes[0], attributes[1..];
            Repeats(m, attributes) <==> Lower(a.name) in m || Repeats(m[Lower(a.name) := a.value], rest)
  {
    hide Lower;
    var a, rest := attributes[0], attributes[1..];
    var m' := m[Lower(a.name) := a.value];
    assert forall i | 0 <= i < |rest| :: rest[i] == attributes[i + 1];
    if i, j :| 0 <= i < j < |attributes| && Lower(attributes[i].name) == Lower(attributes[j].name) {
      assert rest[j - 1] == attributes[j];
      if i == 0 { assert Lower(rest[j - 1].name) in m'; } else { assert rest[i - 1] == attributes[i]; }
    }
    if i :| 0 <= i < |attributes| && Lower(attributes[i].name) in m {
      if i > 0 { assert rest[i - 1] == attributes[i]; }
    }
    if Repeats(m', rest) && !(Lower(a.name) in m) {
      if i :| 0 <= i < |rest| && Lower(rest[i].name) in m' {
        assert attributes[i + 1] == rest[i];
        if Lower(rest[i].name) == Lower(a.name) { assert attributes[0] == a; }
      } else {
        var i, j :| 0 <= i < j < |rest| && Lower(rest[i].name) == Lower(rest[j].name);
        assert attributes[i + 1] == rest[i] && attributes[j + 1] == rest[j];
      }
    }
  }

  lemma {:induction false} ParsesAnyAttributes(name: string, m: map<string, string>, duplicate: bool,
                                               attributes: seq<Attribute>, after: string, selfClosing: bool,
                                               rest: string)
    requires AllSpace(after) && forall i | 0 <= i < |attributes| :: GoodAttribute(attributes[i])
    ensures ParseAttributes(name, false, m, duplicate,
                            PrintAttributes(attributes, PrintTagEnd(after, selfClosing, rest)))
            == Some((Tag(name, false, selfClosing, duplicate || Repeats(m, attributes), AttributeMap(m, attributes)),
                     rest))
    decreases |attributes|
  {
    hide GoodAttribute, Lower;
    if attributes == [] {
      ParsesTagEnd(name, false, m, duplicate, after, selfClosing, rest);
    } else {
      var a := attributes[0];
      var tail := PrintAttributes(attributes[1..], PrintTagEnd(after, selfClosing, rest));
      ParsesOneAttribute(name, m, duplicate, a, tail);
      ParsesAnyAttributes(name, m[Lower(a.name) := a.value], duplicate || Lower(a.name) in m, attributes[1..], after,
                          selfClosing, rest);
      RepeatsFrom(m, attributes);
    }
  }

  /** An element that repeats an attribute is refused. */
  lemma RepeatedAttributesAreRefused(e: Element, rest: string, f: Flags, tags: seq<StartTag>)
    requires TagName(e.name) && AllSpace(e.after)
    requires forall i | 0 <= i < |e.attributes| :: GoodAttribute(e.attributes[i])
    requires Repeats(map[], e.attributes)
    ensures Scan(PrintElement(e, rest), f, tags) == None
  {
    var s := PrintElement(e, rest);
    var tail := PrintAttributes(e.attributes, PrintTagEnd(e.after, e.selfClosing, rest));
    TailStops(e.attributes, e.after, e.selfClosing, rest);
    assert e.name[0] != '/';
    HeaderOf("<", false, e.name, tail);
    ParsesAnyAttributes(Lower(e.name), map[], false, e.attributes, e.after, e.selfClosing, rest);
    assert s[0] == '<' && s[1] == e.name[0];
    ScansTag(s, f, tags);
    hide Scan, Lower, Repeats;
  }

  /** A tag name with a null character is refused. */
  lemma NullInANameIsRefused(name: string, rest: string, f: Flags, tags: seq<StartTag>)
    requires name != "" && Without(name, EndsTagName) && '\0' in name
    requires name[0] != '!' && name[0] != '?' && name[0] != '/'
    requires rest != "" && EndsTagName(rest[0])
    ensures Scan("<" + (name + rest), f, tags) == None
  {
    var s := "<" + (name + rest);
    Split("<", name + rest);
    SpanOver(name, rest, EndsTagName);
    Split(name, rest);
    assert TagHeader(s) == None;
    assert s[1] == name[0];
    ScansTag(s, f, tags);
    hide Scan, TagHeader;
  }

  // ----- Comments, declarations and instructions

  /** A comment that does not end is refused. */
  lemma OpenCommentsAreRefused(text: string, f: Flags, tags: seq<StartTag>)
    requires Lacks(text, "-->")
    ensures Scan("<!--" + text, f, tags) == None
  {
    var s := "<!--" + text;
    ScansAtMarkup(s, f, tags);
    Split("<!--", text);
    NotFound(text, "-->");
    hide Scan, IndexOf;
  }

  lemma {:induction false} NotFound(s: string, pattern: string)
    requires Lacks(s, pattern)
    ensures IndexOf(s, pattern) == None
  {
    assert !(pattern <= s[0..]) && s[0..] == s;
    if s != "" {
      forall i | 0 <= i <= |s[1..]| ensures !(pattern <= s[1..][i..]) { assert s[1..][i..] == s[i + 1..]; }
      NotFound(s[1..], pattern);
    }
  }

  /** A declaration after the doctype, the html or the head was seen is refused, and so is one that does not end. */
  lemma LateDeclarationsAreRefused(text: string, f: Flags, tags: seq<StartTag>)
    requires !("--" <= text) && (f.doctypeSeen || f.htmlSeen || f.headSeen || Lacks(text, ">"))
    ensures Scan("<!" + text, f, tags) == None
  {
    var s := "<!" + text;
    ScansAtMarkup(s, f, tags);
    Split("<!", text);
    assert !("<!--" <= s);
    if Lacks(text, ">") { NotFound(text, ">"); }
    hide Scan, IndexOf, IsDoctype;
  }

  /** A processing instruction is refused. */
  lemma InstructionsAreRefused(text: string, f: Flags, tags: seq<StartTag>)
    ensures Scan("<?" + text, f, tags) == None
  {
    var s := "<?" + text;
    assert s[1] == '?' && "<?" <= s;
    ScansAtMarkup(s, f, tags);
    hide Scan;
  }

  ghost predicate AllRegexSpace(s: string) {
    forall i | 0 <= i < |s| :: s[i] in {' ', '\t', '\n', '\U{000B}', '\U{000C}', '\r'}
  }

  lemma RegexSpacesAre(s: string)
    ensures AllRegexSpace(s) <==> Without(s, NotRegexSpace)
  {
    assert forall c :: NotRegexSpace(c) <==> c !in {' ', '\t', '\n', '\U{000B}', '\U{000C}', '\r'};
  }

  /** A doctype, letter case aside, is the word, some space, "html" and perhaps more space. */
  lemma DoctypesAre(declaration: string)
    ensures IsDoctype(declaration) <==>
              exists gap, end ::
                && gap != "" && AllRegexSpace(gap) && AllRegexSpace(end)
                && Lower(declaration) == "<!doctype" + gap + "html" + end + ">"
  {
    var d := Lower(declaration);
    hide Lower;
    if IsDoctype(declaration) {
      DoctypeParts(declaration);
    }
    forall gap, end | gap != "" && AllRegexSpace(gap) && AllRegexSpace(end)
                      && d == "<!doctype" + gap + "html" + end + ">"
      ensures IsDoctype(declaration)
    {
      PartsOfDoctype(d, gap, end);
    }
  }

  lemma DoctypeParts(declaration: string)
    requires IsDoctype(declaration)
    ensures exists gap, end ::
              && gap != "" && AllRegexSpace(gap) && AllRegexSpace(end)
              && Lower(declaration) == "<!doctype" + gap + "html" + end + ">"
  {
    hide Lower;
    var d := Lower(declaration);
    var n := Span(d[9..], NotRegexSpace);
    var tail := d[13 + n..];
    var m := Span(tail, NotRegexSpace);
    var gap, end := d[9..][..n], tail[..m];
    RegexSpacesAre(gap);
    RegexSpacesAre(end);
    hide AllRegexSpace, Span, NotRegexSpace;
    PartsTogether(d, n, m);
  }

  lemma PartsTogether(d: string, n: nat, m: nat)
    requires "<!doctype" <= d && n <= |d[9..]| && "html" <= d[9 + n..] && m <= |d[13 + n..]| && d[13 + n..][m..] == ">"
    ensures d == "<!doctype" + d[9..][..n] + "html" + d[13 + n..][..m] + ">"
  {
    var s := d[9..];
    var rest := s[n..];
    assert rest == d[9 + n..] && rest[4..] == d[13 + n..];
    var end := rest[4..];
    calc {
      "<!doctype" + s[..n] + "html" + end[..m] + ">";
    == { Joins("<!doctype" + s[..n] + "html", end[..m], ">"); Halves(end, m); }
      "<!doctype" + s[..n] + "html" + end;
    == { Joins("<!doctype" + s[..n], "html", end); StartsWith(rest, "html"); }
      "<!doctype" + s[..n] + rest;
    == { Joins("<!doctype", s[..n], rest); Halves(s, n); }
      "<!doctype" + s;
    == { StartsWith(d, "<!doctype"); }
      d;
    }
  }

  lemma Joins(a: string, b: string, c: string)
    ensures a + b + c == a + (b + c)
  {
  }

  lemma Halves(s: string, n: nat)
    requires n <= |s|
    ensures s[..n] + s[n..] == s
  {
  }

  lemma StartsWith(s: string, prefix: string)
    requires prefix <= s
    ensures prefix + s[|prefix|..] == s
  {
  }

  lemma PartsOfDoctype(d: string, gap: string, end: string)
    requires gap != "" && AllRegexSpace(gap) && AllRegexSpace(end) && d == "<!doctype" + gap + "html" + end + ">"
    ensures "<!doctype" <= d && Span(d[9..], NotRegexSpace) == |gap| && "html" <= d[9 + |gap|..]
    ensures d[13 + |gap|..][Span(d[13 + |gap|..], NotRegexSpace)..] == ">"
  {
    var rest, tail := "html" + end + ">", end + ">";
    RegexSpacesAre(gap);
    RegexSpacesAre(end);
    hide AllRegexSpace;
    assert d[9..] == gap + rest;
    SpanOver(gap, rest, NotRegexSpace);
    assert d[9 + |gap|..] == rest && d[13 + |gap|..] == tail;
    SpanOver(end, ">", NotRegexSpace);
  }

  // ----- Text and raw text

  /** Text before the head is over is refused. */
  lemma EarlyTextIsRefused(text: string, rest: string, f: Flags, tags: seq<StartTag>)
    requires Without(text, IsLess) && !AllSpace(text) && (!f.headSeen || f.inHead)
    ensures Scan(text + rest, f, tags) == None
  {
    var s := text + rest;
    var gap := Span(s, IsLess);
    assert gap >= |text|;
    assert !AllSpace(s[..gap]) by {
      var i :| 0 <= i < |text| && !IsSpace(text[i]);
      assert s[..gap][i] == text[i];
    }
    hide ScanMarkup;
  }

  ghost predicate IsEscaping(text: string) {
    !Lacks(text, "<!--") || !Lacks(text, "-->") || !Lacks(text, "<script")
  }

  /** Only the text of a script can be ambiguous. */
  lemma AmbiguousIff(name: string, text: string)
    ensures AmbiguousScript(name, Lower(text)) <==> name == "script" && IsEscaping(Lower(text))
  {
    if IsEscaping(Lower(text)) { IsEscaped(text); } else {
      NotFound(Lower(text), "<!--");
      NotFound(Lower(text), "-->");
      NotFound(Lower(text), "<script");
    }
  }

  /** A script that could be in one of the escaped states is refused, whatever follows. */
  lemma EscapedScriptsAreRefused(e: Element, content: string, closer: string, after: string, rest: string, f: Flags,
                                 tags: seq<StartTag>)
    requires GoodElement(e) && Lower(e.name) == "script" && Lower(closer) == "script" && AllSpace(after)
    requires Lacks(Lower(content), "</script")
    requires IsEscaping(Lower(content))
    ensures Scan(PrintNode(Raw(e, content, closer, after), rest), f, tags) == None
  {
    hide Lower, GoodElement, JudgeCandidate, RawTextEnd, AmbiguousScript, Scan;
    IsEscaped(content);
    IsAmbiguous(content, closer, after, rest);
    assert "</" + Lower(closer) == "</script";
    NoEnd(content, closer, after, rest);
    OpenRawTextIsRefused(e, content + PrintCloser(closer, after, rest), f, tags);
  }

  /** A raw-text element whose text does not end is refused. */
  lemma OpenRawTextIsRefused(e: Element, rest: string, f: Flags, tags: seq<StartTag>)
    requires GoodElement(e) && Lower(e.name) in RAW_TEXT && RawTextEnd(rest, Lower(e.name), 0) == None
    ensures Scan(PrintElement(e, rest), f, tags) == None
  {
    hide Scan, ParseTag, RawTextEnd, Lower;
    var s := PrintElement(e, rest);
    assert s[0] == '<' && s[1] == e.name[0];
    ScansTag(s, f, tags);
    ParsesElement(e, rest);
  }

  lemma IsEscaped(content: string)
    requires IsEscaping(Lower(content))
    ensures AmbiguousScript("script", Lower(content))
  {
    var text := Lower(content);
    if !Lacks(text, "<!--") {
      var i :| 0 <= i <= |text| && "<!--" <= text[i..];
      IsFound(text, "<!--", i);
    } else if !Lacks(text, "-->") {
      var i :| 0 <= i <= |text| && "-->" <= text[i..];
      IsFound(text, "-->", i);
    } else {
      var i :| 0 <= i <= |text| && "<script" <= text[i..];
      IsFound(text, "<script", i);
    }
  }

  lemma {:induction false} IsFound(s: string, pattern: string, i: nat)
    requires i <= |s| && pattern <= s[i..]
    ensures IndexOf(s, pattern).Some?
  {
    if i > 0 {
      assert s[1..][i - 1..] == s[i..];
      IsFound(s[1..], pattern, i - 1);
    } else {
      assert s[0..] == s;
    }
  }

  lemma IsAmbiguous(content: string, closer: string, after: string, rest: string)
    requires Lower(closer) == "script" && AllSpace(after) && AmbiguousScript("script", Lower(content))
    ensures var s := content + PrintCloser(closer, after, rest);
            |content| + 2 + |"script"| <= |s| && JudgeCandidate(s, "script", |content|) == Ambiguous
  {
    hide AmbiguousScript, ParseTag;
    var printed, tail := PrintCloser(closer, after, rest), PrintTagEnd(after, false, rest);
    var s := content + printed;
    TailStops([], after, false, rest);
    assert |closer| == 6 && s[|content| + 2 + 6] == tail[0];
    LowerPrefix(content, printed);
    EndsOfTags(after, rest);
  }

  lemma EndsOfTags(after: string, rest: string)
    requires AllSpace(after)
    ensures var tail := PrintTagEnd(after, false, rest); tail != "" && (tail[0] == '>' || IsSpace(tail[0]))
  {
  }

  lemma NoEnd(content: string, closer: string, after: string, rest: string)
    requires Lower(closer) in RAW_TEXT && Lacks(Lower(content), "</" + Lower(closer))
    requires var s := content + PrintCloser(closer, after, rest);
             |content| + 2 + |Lower(closer)| <= |s| && JudgeCandidate(s, Lower(closer), |content|) == Ambiguous
    ensures RawTextEnd(content + PrintCloser(closer, after, rest), Lower(closer), 0) == None
  {
    hide JudgeCandidate;
    var s := content + PrintCloser(closer, after, rest);
    FindsCloser(content, closer, PrintTagEnd(after, false, rest));
    assert Lower(s)[0..] == Lower(s);
  }
}
