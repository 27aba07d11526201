/**
 Sealed documents, how they print, and the proof that scanning a printed document
 reports exactly its start tags.
 */
module HtmlRoundTrip {
  import opened Wrappers
  import opened HtmlScanner

  // ----- Documents

  /** ` name="value"`, with any non-empty run of spaces in front and either quote. */
  datatype Attribute = Attribute(before: string, name: string, value: string, doubleQuoted: bool)

  datatype Element = Element(name: string, attributes: seq<Attribute>, after: string, selfClosing: bool)

  datatype Node =
    | Text(text: string)
    | Comment(comment: string)
    | Open(element: Element)
    | Raw(rawElement: Element, content: string, closer: string, closerAfter: string)
    | Close(name: string, after: string)

  datatype Doctype = Doctype(keyword: string, gap: string, kind: string, after: string)

  datatype Document = Document(
    lead: seq<Node>, doctype: Option<Doctype>, beforeHtml: seq<Node>, html: Element,
    beforeHead: seq<Node>, head: Element, inHead: seq<Node>, headCloser: string, headCloserAfter: string,
    body: seq<Node>)

  // ----- Printing: each function puts its text in front of `rest`

  function QuoteChar(a: Attribute): char {
    if a.doubleQuoted then '"' else '\''
  }

  function PrintValue(a: Attribute, rest: string): string {
    [QuoteChar(a)] + (a.value + ([QuoteChar(a)] + rest))
  }

  function PrintAttribute(a: Attribute, rest: string): string {
    a.before + (a.name + ("=" + PrintValue(a, rest)))
  }

  function PrintAttributes(attributes: seq<Attribute>, rest: string): string {
    if attributes == [] then rest else PrintAttribute(attributes[0], PrintAttributes(attributes[1..], rest))
  }

  function PrintTagEnd(after: string, selfClosing: bool, rest: string): string {
    after + ((if selfClosing then "/>" else ">") + rest)
  }

  function PrintElement(e: Element, rest: string): string {
    "<" + (e.name + PrintAttributes(e.attributes, PrintTagEnd(e.after, e.selfClosing, rest)))
  }

  function PrintCloser(name: string, after: string, rest: string): string {
    "</" + (name + PrintTagEnd(after, false, rest))
  }

  function PrintNode(n: Node, rest: string): string {
    match n
    case Text(text) => text + rest
    case Comment(comment) => "<!--" + (comment + "-->" + rest)
    case Open(e) => PrintElement(e, rest)
    case Raw(e, content, closer, after) => PrintElement(e, content + PrintCloser(closer, after, rest))
    case Close(name, after) => PrintCloser(name, after, rest)
  }

  function PrintNodes(nodes: seq<Node>, rest: string): string {
    if nodes == [] then rest else PrintNode(nodes[0], PrintNodes(nodes[1..], rest))
  }

  function PrintDoctype(d: Option<Doctype>, rest: string): string {
    if d.None? then rest
    else "<!" + (d.value.keyword + d.value.gap + d.value.kind + d.value.after + ">" + rest)
  }

  function Print(d: Document): string {
    PrintNodes(d.lead,
      PrintDoctype(d.doctype,
        PrintNodes(d.beforeHtml,
          PrintElement(d.html,
            PrintNodes(d.beforeHead,
              PrintElement(d.head,
                PrintNodes(d.inHead,
                  PrintCloser(d.headCloser, d.headCloserAfter,
                    PrintNodes(d.body, "")))))))))
  }

  // ----- Well-formedness

  ghost predicate Without(s: string, stop: char -> bool) {
    forall i | 0 <= i < |s| :: !stop(s[i])
  }

  ghost predicate TagName(name: string) {
    && name != "" && Without(name, EndsTagName) && '\0' !in name
    && name[0] != '!' && name[0] != '?'
  }

  ghost predicate GoodAttribute(a: Attribute) {
    && a.before != "" && AllSpace(a.before)
    && a.name != "" && Without(a.name, EndsAttributeName)
    && (if a.doubleQuoted then Without(a.value, IsDoubleQuote) else Without(a.value, IsSingleQuote))
  }

  ghost predicate GoodElement(e: Element) {
    && TagName(e.name) && AllSpace(e.after)
    && (forall i | 0 <= i < |e.attributes| :: GoodAttribute(e.attributes[i]))
    && (forall i, j | 0 <= i < j < |e.attributes| :: Lower(e.attributes[i].name) != Lower(e.attributes[j].name))
  }

  /** The pattern does not occur anywhere in the text. */
  ghost predicate Lacks(s: string, pattern: string) {
    forall i | 0 <= i <= |s| :: !(pattern <= s[i..])
  }

  /** Raw text that its own closer does not interrupt, and for scripts no escape states. */
  ghost predicate GoodRaw(e: Element, content: string, closer: string, after: string) {
    && GoodElement(e) && Lower(e.name) in RAW_TEXT
    && Lower(closer) == Lower(e.name) && AllSpace(after)
    && Lacks(Lower(content), "</" + Lower(e.name))
    && !AmbiguousScript(Lower(e.name), Lower(content))
  }

  ghost predicate GoodMisc(n: Node) {
    match n
    case Text(text) => AllSpace(text)
    case Comment(comment) => Lacks(comment, "-->")
    case _ => false
  }

  ghost predicate GoodInHead(n: Node) {
    match n
    case Open(e) => GoodElement(e) && Lower(e.name) in DIRECT_HEAD && Lower(e.name) !in RAW_TEXT
    case Raw(e, content, closer, after) => GoodRaw(e, content, closer, after) && Lower(e.name) in DIRECT_HEAD
    case _ => GoodMisc(n)
  }

  ghost predicate GoodInBody(n: Node) {
    match n
    case Text(text) => Without(text, IsLess)
    case Comment(comment) => Lacks(comment, "-->")
    case Open(e) => GoodElement(e) && Lower(e.name) !in RAW_TEXT + {"html", "head", "template"}
    case Raw(e, content, closer, after) => GoodRaw(e, content, closer, after)
    case Close(name, after) => TagName(name) && Lower(name) != "head" && AllSpace(after)
  }

  ghost predicate GoodDoctype(d: Doctype) {
    && Lower(d.keyword) == "doctype" && Lower(d.kind) == "html"
    && d.gap != "" && (forall i | 0 <= i < |d.gap| :: IsRegexSpace(d.gap[i]))
    && (forall i | 0 <= i < |d.after| :: IsRegexSpace(d.after[i]))
  }

  ghost predicate WellFormed(d: Document) {
    && (forall n | n in d.lead :: GoodMisc(n))
    && (d.doctype.Some? ==> GoodDoctype(d.doctype.value))
    && (forall n | n in d.beforeHtml :: GoodMisc(n))
    && GoodElement(d.html) && Lower(d.html.name) == "html"
    && (forall n | n in d.beforeHead :: GoodMisc(n))
    && GoodElement(d.head) && Lower(d.head.name) == "head"
    && (forall n | n in d.inHead :: GoodInHead(n))
    && Lower(d.headCloser) == "head" && AllSpace(d.headCloserAfter)
    && (forall n | n in d.body :: GoodInBody(n))
  }

  // ----- What scanning must report

  function AttributeMap(m: map<string, string>, attributes: seq<Attribute>): map<string, string>
    decreases |attributes|
  {
    if attributes == [] then m
    else AttributeMap(m[Lower(attributes[0].name) := attributes[0].value], attributes[1..])
  }

  function Report(e: Element, inHead: bool): StartTag {
    StartTag(Lower(e.name), AttributeMap(map[], e.attributes), e.selfClosing, inHead)
  }

  function ReportOf(n: Node, inHead: bool): seq<StartTag> {
    match n
    case Open(e) => [Report(e, inHead)]
    case Raw(e, _, _, _) => [Report(e, inHead)]
    case _ => []
  }

  function Reports(nodes: seq<Node>, inHead: bool): seq<StartTag> {
    if nodes == [] then [] else ReportOf(nodes[0], inHead) + Reports(nodes[1..], inHead)
  }

  function Expected(d: Document): seq<StartTag> {
    [Report(d.html, false), Report(d.head, true)] + Reports(d.inHead, true) + Reports(d.body, false)
  }

  // ----- Substring lemmas

  lemma {:induction false} SpanOver(p: string, rest: string, stop: char -> bool)
    requires Without(p, stop)
    requires rest == "" || stop(rest[0])
    ensures Span(p + rest, stop) == |p|
  {
    if p == "" {
      assert p + rest == rest;
    } else {
      assert (p + rest)[1..] == p[1..] + rest;
      SpanOver(p[1..], rest, stop);
    }
  }

  lemma SkipsSpaces(p: string, rest: string)
    requires AllSpace(p)
    requires rest == "" || !IsSpace(rest[0])
    ensures DropSpaces(p + rest) == rest
  {
    SpanOver(p, rest, NotSpace);
    assert (p + rest)[|p|..] == rest;
  }

  /** The first occurrence is where it was put, if none starts earlier. */
  lemma {:induction false} IndexOfPut(p: string, pattern: string, rest: string)
    requires forall i | 0 <= i < |p| :: !(pattern <= (p + pattern + rest)[i..])
    ensures IndexOf(p + pattern + rest, pattern) == Some(|p|)
  {
    var s := p + pattern + rest;
    if p == "" {
      assert pattern <= s;
    } else {
      assert s[0..] == s;
      assert !(pattern <= s);
      assert s[1..] == p[1..] + pattern + rest;
      forall i | 0 <= i < |p[1..]| ensures !(pattern <= (p[1..] + pattern + rest)[i..]) {
        assert (p[1..] + pattern + rest)[i..] == s[i + 1..];
      }
      IndexOfPut(p[1..], pattern, rest);
    }
  }

  /** A pattern whose first character occurs in it only once cannot start inside text that lacks it. */
  lemma NoEarlyMatchByFirst(p: string, pattern: string, rest: string, i: nat)
    requires i < |p| && pattern != "" && Lacks(p, pattern)
    requires forall k | 1 <= k < |pattern| :: pattern[k] != pattern[0]
    ensures !(pattern <= (p + pattern + rest)[i..])
  {
    var s := p + pattern + rest;
    if i + |pattern| <= |p| {
      assert s[i..][..|pattern|] == p[i..][..|pattern|];
      assert !(pattern <= p[i..]);
    } else {
      assert s[i..][|p| - i] == pattern[0];
      assert pattern[|p| - i] != pattern[0];
    }
  }

  /** The same, when it is the last character that occurs only once. */
  lemma NoEarlyMatchByLast(p: string, pattern: string, rest: string, i: nat)
    requires i < |p| && pattern != "" && Lacks(p, pattern)
    requires forall k | 0 <= k < |pattern| - 1 :: pattern[k] != pattern[|pattern| - 1]
    ensures !(pattern <= (p + pattern + rest)[i..])
  {
    var s := p + pattern + rest;
    var last := |pattern| - 1;
    if i + |pattern| <= |p| {
      assert s[i..][..|pattern|] == p[i..][..|pattern|];
      assert !(pattern <= p[i..]);
    } else {
      assert s[i..][last] == pattern[i + last - |p|];
    }
  }

  lemma LowerConcat(a: string, b: string)
    ensures Lower(a + b) == Lower(a) + Lower(b)
  {
  }

  lemma Split(a: string, b: string)
    ensures (a + b)[..|a|] == a && (a + b)[|a|..] == b
  {
  }

  // ----- One tag

  lemma ParsesQuoted(value: string, q: char, rest: string, closes: char -> bool)
    requires Without(value, closes) && closes(q)
    ensures ParseQuoted(value + ([q] + rest), closes) == Some((value, rest))
  {
    SpanOver(value, [q] + rest, closes);
    Split(value, [q] + rest);
    assert (value + ([q] + rest))[|value| + 1..] == rest;
  }

  lemma ParsesValue(a: Attribute, rest: string)
    requires GoodAttribute(a)
    ensures ParseValue("=" + PrintValue(a, rest)) == Some((a.value, rest))
  {
    hide DropSpaces, Span, Lower;
    var v := PrintValue(a, rest);
    Split("=", v);
    assert v == "" + v;
    SkipsSpaces("", v);
    Split([QuoteChar(a)], a.value + ([QuoteChar(a)] + rest));
    assert ParseValue("=" + v) == ValueAt(v);
    if a.doubleQuoted {
      ParsesQuoted(a.value, '"', rest, IsDoubleQuote);
    } else {
      ParsesQuoted(a.value, '\'', rest, IsSingleQuote);
    }
  }

  lemma ParsesAttribute(a: Attribute, rest: string)
    requires GoodAttribute(a)
    ensures ParseAttribute(a.name + ("=" + PrintValue(a, rest))) == Some((Lower(a.name), a.value, rest))
  {
    var tail := "=" + PrintValue(a, rest);
    SpanOver(a.name, tail, EndsAttributeName);
    Split(a.name, tail);
    assert tail == "" + tail;
    SkipsSpaces("", tail);
    ParsesValue(a, rest);
  }

  lemma ParsesOneAttribute(name: string, m: map<string, string>, duplicate: bool, a: Attribute, rest: string)
    requires GoodAttribute(a)
    ensures ParseAttributes(name, false, m, duplicate, PrintAttribute(a, rest))
         == ParseAttributes(name, false, m[Lower(a.name) := a.value], duplicate || Lower(a.name) in m, rest)
  {
    var t := a.name + ("=" + PrintValue(a, rest));
    assert !EndsAttributeName(t[0]);
    SkipsSpaces(a.before, t);
    ParsesAttribute(a, rest);
  }

  lemma ParsesTagEnd(name: string, closing: bool, m: map<string, string>, duplicate: bool, after: string,
                     selfClosing: bool, rest: string)
    requires AllSpace(after)
    ensures ParseAttributes(name, closing, m, duplicate, PrintTagEnd(after, selfClosing, rest))
         == Some((Tag(name, closing, selfClosing, duplicate, m), rest))
  {
    var close := if selfClosing then "/>" else ">";
    SkipsSpaces(after, close + rest);
    Split(close, rest);
  }

  lemma {:induction false} ParsesAttributes(name: string, m: map<string, string>, attributes: seq<Attribute>,
                                            after: string, selfClosing: bool, rest: string)
    requires AllSpace(after)
    requires forall i | 0 <= i < |attributes| :: GoodAttribute(attributes[i])
    requires forall i | 0 <= i < |attributes| :: Lower(attributes[i].name) !in m
    requires forall i, j | 0 <= i < j < |attributes| :: Lower(attributes[i].name) != Lower(attributes[j].name)
    ensures ParseAttributes(name, false, m, false, PrintAttributes(attributes, PrintTagEnd(after, selfClosing, rest)))
         == Some((Tag(name, false, selfClosing, false, AttributeMap(m, attributes)), rest))
    decreases |attributes|
  {
    if attributes == [] {
      ParsesTagEnd(name, false, m, false, after, selfClosing, rest);
    } else {
      var a := attributes[0];
      var tail := PrintAttributes(attributes[1..], PrintTagEnd(after, selfClosing, rest));
      ParsesOneAttribute(name, m, false, a, tail);
      ParsesAttributes(name, m[Lower(a.name) := a.value], attributes[1..], after, selfClosing, rest);
    }
  }

  lemma TailStops(attributes: seq<Attribute>, after: string, selfClosing: bool, rest: string)
    requires AllSpace(after)
    requires forall i | 0 <= i < |attributes| :: GoodAttribute(attributes[i])
    ensures var tail := PrintAttributes(attributes, PrintTagEnd(after, selfClosing, rest));
            tail != "" && EndsTagName(tail[0])
  {
  }

  lemma HeaderOf(open: string, closing: bool, name: string, tail: string)
    requires open == if closing then "</" else "<"
    requires name != "" && name[0] != '/' && Without(name, EndsTagName) && '\0' !in name
    requires tail != "" && EndsTagName(tail[0])
    ensures TagHeader(open + (name + tail)) == Some((closing, Lower(name), tail))
  {
    Split(open, name + tail);
    SpanOver(name, tail, EndsTagName);
    Split(name, tail);
  }

  /** A printed element parses back to its name, attributes and self-closing flag. */
  lemma ParsesElement(e: Element, rest: string)
    requires GoodElement(e)
    ensures ParseTag(PrintElement(e, rest))
         == Some((Tag(Lower(e.name), false, e.selfClosing, false, AttributeMap(map[], e.attributes)), rest))
  {
    var tail := PrintAttributes(e.attributes, PrintTagEnd(e.after, e.selfClosing, rest));
    TailStops(e.attributes, e.after, e.selfClosing, rest);
    assert e.name[0] != '/';
    HeaderOf("<", false, e.name, tail);
    ParsesAttributes(Lower(e.name), map[], e.attributes, e.after, e.selfClosing, rest);
  }

  lemma ParsesCloser(name: string, after: string, rest: string)
    requires name != "" && Without(name, EndsTagName) && '\0' !in name && AllSpace(after)
    ensures ParseTag(PrintCloser(name, after, rest)) == Some((Tag(Lower(name), true, false, false, map[]), rest))
  {
    var tail := PrintTagEnd(after, false, rest);
    TailStops([], after, false, rest);
    assert name[0] != '/';
    HeaderOf("</", true, name, tail);
    ParsesTagEnd(Lower(name), true, map[], false, after, false, rest);
  }

  // ----- Raw text

  lemma RawNamesAreLetters(name: string)
    requires name in RAW_TEXT
    ensures name != "" && forall i | 0 <= i < |name| :: 'a' <= name[i] <= 'z'
  {
  }

  lemma LowersCloser(content: string, closer: string, tail: string)
    ensures Lower(content + ("</" + (closer + tail))) == Lower(content) + ("</" + Lower(closer)) + Lower(tail)
  {
    assert Lower("</") == "</";
    LowerConcat(closer, tail);
    LowerConcat("</", closer + tail);
    LowerConcat(content, "</" + (closer + tail));
    Regroup(Lower(content), "</", Lower(closer), Lower(tail));
  }

  lemma Regroup(a: string, b: string, c: string, d: string)
    ensures a + (b + (c + d)) == a + (b + c) + d
  {
  }

  lemma FindsCloser(content: string, closer: string, tail: string)
    requires Lower(closer) in RAW_TEXT
    requires Lacks(Lower(content), "</" + Lower(closer))
    ensures IndexOf(Lower(content + ("</" + (closer + tail))), "</" + Lower(closer)) == Some(|content|)
  {
    LowersCloser(content, closer, tail);
    RawNamesAreLetters(Lower(closer));
    FindsName(Lower(content), Lower(closer), Lower(tail));
  }

  lemma FindsName(content: string, name: string, tail: string)
    requires forall i | 0 <= i < |name| :: name[i] != '<'
    requires Lacks(content, "</" + name)
    ensures IndexOf(content + ("</" + name) + tail, "</" + name) == Some(|content|)
  {
    forall i | 0 <= i < |content| ensures !("</" + name <= (content + ("</" + name) + tail)[i..]) {
      NoEarlyMatchByFirst(content, "</" + name, tail, i);
    }
    IndexOfPut(content, "</" + name, tail);
  }

  lemma LowerPrefix(a: string, b: string)
    ensures Lower(a + b)[..|a|] == Lower(a)
  {
    LowerConcat(a, b);
    Split(Lower(a), Lower(b));
  }

  lemma CloserParses(closer: string)
    requires Lower(closer) in RAW_TEXT + {"head"}
    ensures closer != "" && Without(closer, EndsTagName) && '\0' !in closer
  {
    if Lower(closer) in RAW_TEXT { RawNamesAreLetters(Lower(closer)); }
    assert forall i | 0 <= i < |closer| :: 'a' <= Lower(closer)[i] <= 'z';
  }

  lemma JudgesCloser(e: Element, content: string, closer: string, after: string, rest: string)
    requires GoodRaw(e, content, closer, after)
    ensures var s := content + PrintCloser(closer, after, rest);
            |content| + 2 + |Lower(e.name)| <= |s| && JudgeCandidate(s, Lower(e.name), |content|) == Closed(rest)
  {
    var name := Lower(e.name);
    var tail := PrintTagEnd(after, false, rest);
    var printed := PrintCloser(closer, after, rest);
    var s := content + printed;
    TailStops([], after, false, rest);
    assert s[|content| + 2 + |name|] == tail[0];
    LowerPrefix(content, printed);
    Split(content, printed);
    CloserParses(closer);
    ParsesCloser(closer, after, rest);
  }

  /** Raw text is skipped up to and including its own closer. */
  lemma SkipsRawText(e: Element, content: string, closer: string, after: string, rest: string)
    requires GoodRaw(e, content, closer, after)
    ensures RawTextEnd(content + PrintCloser(closer, after, rest), Lower(e.name), 0) == Some(rest)
  {
    hide JudgeCandidate;
    var s := content + PrintCloser(closer, after, rest);
    FindsCloser(content, closer, PrintTagEnd(after, false, rest));
    assert Lower(s)[0..] == Lower(s);
    JudgesCloser(e, content, closer, after, rest);
  }

  // ----- One node at a time

  lemma ScansText(text: string, rest: string, f: Flags, tags: seq<StartTag>)
    requires Without(text, IsLess)
    requires AllSpace(text) || !(!f.headSeen || f.inHead)
    ensures Scan(text + rest, f, tags) == Scan(rest, f, tags)
  {
    var s := text + rest;
    var gap := Span(rest, IsLess);
    assert rest == rest[..gap] + rest[gap..];
    assert s == (text + rest[..gap]) + rest[gap..];
    SpanOver(text + rest[..gap], rest[gap..], IsLess);
    assert s[|text| + gap..] == rest[gap..];
    assert s[..|text| + gap] == text + rest[..gap];
    assert AllSpace(text) ==> (AllSpace(text + rest[..gap]) <==> AllSpace(rest[..gap])) by {
      assert forall i | 0 <= i < gap :: (text + rest[..gap])[|text| + i] == rest[i];
    }
  }

  lemma ScansAtMarkup(s: string, f: Flags, tags: seq<StartTag>)
    requires s != "" && s[0] == '<'
    ensures Scan(s, f, tags) == ScanMarkup(s, f, tags)
  {
    assert Span(s, IsLess) == 0;
    assert s[0..] == s;
  }

  lemma ScansComment(comment: string, rest: string, f: Flags, tags: seq<StartTag>)
    requires Lacks(comment, "-->")
    ensures Scan(PrintNode(Comment(comment), rest), f, tags) == Scan(rest, f, tags)
  {
    var body := comment + "-->" + rest;
    var s := "<!--" + body;
    ScansAtMarkup(s, f, tags);
    Split("<!--", body);
    forall i | 0 <= i < |comment| ensures !("-->" <= body[i..]) {
      NoEarlyMatchByLast(comment, "-->", rest, i);
    }
    IndexOfPut(comment, "-->", rest);
    assert s[4 + |comment| + 3..] == rest;
  }

  /** A tag that is neither a comment, a declaration nor an instruction goes to the tag parser. */
  lemma ScansTag(s: string, f: Flags, tags: seq<StartTag>)
    requires |s| > 1 && s[0] == '<' && s[1] != '!' && s[1] != '?'
    ensures Scan(s, f, tags) ==
            match ParseTag(s)
            case None => None
            case Some((tag, rest)) => ScanTag(tag, rest, f, tags)
  {
    ScansAtMarkup(s, f, tags);
  }

  lemma ScansOpen(e: Element, rest: string, f: Flags, tags: seq<StartTag>)
    requires GoodElement(e) && Lower(e.name) !in RAW_TEXT && OnOpen(f, Lower(e.name)).Some?
    ensures var f' := OnOpen(f, Lower(e.name)).value;
            Scan(PrintElement(e, rest), f, tags) == Scan(rest, f', tags + [Report(e, f'.inHead)])
  {
    var s := PrintElement(e, rest);
    assert s[0] == '<' && s[1] == e.name[0];
    ScansTag(s, f, tags);
    ParsesElement(e, rest);
  }

  lemma ScansRaw(e: Element, content: string, closer: string, after: string, rest: string, f: Flags,
                 tags: seq<StartTag>)
    requires GoodRaw(e, content, closer, after) && OnOpen(f, Lower(e.name)).Some?
    ensures var f' := OnOpen(f, Lower(e.name)).value;
            Scan(PrintNode(Raw(e, content, closer, after), rest), f, tags)
              == Scan(rest, f', tags + [Report(e, f'.inHead)])
  {
    var inner := content + PrintCloser(closer, after, rest);
    var s := PrintElement(e, inner);
    assert s[0] == '<' && s[1] == e.name[0];
    ScansTag(s, f, tags);
    ParsesElement(e, inner);
    SkipsRawText(e, content, closer, after, rest);
  }

  lemma ScansClose(name: string, after: string, rest: string, f: Flags, tags: seq<StartTag>)
    requires name != "" && Without(name, EndsTagName) && '\0' !in name && AllSpace(after)
    requires OnClose(f, Lower(name)).Some?
    ensures Scan(PrintCloser(name, after, rest), f, tags) == Scan(rest, OnClose(f, Lower(name)).value, tags)
  {
    var s := PrintCloser(name, after, rest);
    assert s[0] == '<' && s[1] == '/';
    ScansTag(s, f, tags);
    ParsesCloser(name, after, rest);
  }

  // ----- Runs of nodes

  lemma {:induction false} ScansMisc(nodes: seq<Node>, rest: string, f: Flags, tags: seq<StartTag>)
    requires forall n | n in nodes :: GoodMisc(n)
    ensures Scan(PrintNodes(nodes, rest), f, tags) == Scan(rest, f, tags)
    decreases |nodes|
  {
    if nodes != [] {
      var tail := PrintNodes(nodes[1..], rest);
      assert GoodMisc(nodes[0]);
      match nodes[0] {
        case Text(text) => ScansText(text, tail, f, tags);
        case Comment(comment) => ScansComment(comment, tail, f, tags);
      }
      ScansMisc(nodes[1..], rest, f, tags);
    }
  }

  lemma ScansHeadNode(n: Node, rest: string, f: Flags, tags: seq<StartTag>)
    requires f.headSeen && f.inHead && GoodInHead(n)
    ensures Scan(PrintNode(n, rest), f, tags) == Scan(rest, f, tags + ReportOf(n, true))
  {
    assert tags + [] == tags;
    match n {
      case Text(text) => ScansText(text, rest, f, tags);
      case Comment(comment) => ScansComment(comment, rest, f, tags);
      case Open(e) => ScansOpen(e, rest, f, tags);
      case Raw(e, content, closer, after) => ScansRaw(e, content, closer, after, rest, f, tags);
    }
  }

  lemma ScansBodyNode(n: Node, rest: string, f: Flags, tags: seq<StartTag>)
    requires f.headSeen && !f.inHead && f.headClosed && GoodInBody(n)
    ensures Scan(PrintNode(n, rest), f, tags) == Scan(rest, f, tags + ReportOf(n, false))
  {
    assert tags + [] == tags;
    match n {
      case Text(text) => ScansText(text, rest, f, tags);
      case Comment(comment) => ScansComment(comment, rest, f, tags);
      case Open(e) => ScansOpen(e, rest, f, tags);
      case Raw(e, content, closer, after) => ScansRaw(e, content, closer, after, rest, f, tags);
      case Close(name, after) => ScansClose(name, after, rest, f, tags);
    }
  }

  lemma {:induction false} ScansHead(nodes: seq<Node>, rest: string, f: Flags, tags: seq<StartTag>)
    requires f.headSeen && f.inHead
    requires forall n | n in nodes :: GoodInHead(n)
    ensures Scan(PrintNodes(nodes, rest), f, tags) == Scan(rest, f, tags + Reports(nodes, true))
    decreases |nodes|
  {
    if nodes == [] {
      assert tags + Reports(nodes, true) == tags;
    } else {
      ScansHeadNode(nodes[0], PrintNodes(nodes[1..], rest), f, tags);
      ScansHead(nodes[1..], rest, f, tags + ReportOf(nodes[0], true));
      assert tags + ReportOf(nodes[0], true) + Reports(nodes[1..], true) == tags + Reports(nodes, true);
    }
  }

  lemma {:induction false} ScansBody(nodes: seq<Node>, rest: string, f: Flags, tags: seq<StartTag>)
    requires f.headSeen && !f.inHead && f.headClosed
    requires forall n | n in nodes :: GoodInBody(n)
    ensures Scan(PrintNodes(nodes, rest), f, tags) == Scan(rest, f, tags + Reports(nodes, false))
    decreases |nodes|
  {
    if nodes == [] {
      assert tags + Reports(nodes, false) == tags;
    } else {
      var first, tail := nodes[0], nodes[1..];
      var tags' := tags + ReportOf(first, false);
      assert tags' + Reports(tail, false) == tags + Reports(nodes, false);
      calc {
        Scan(PrintNodes(nodes, rest), f, tags);
        Scan(PrintNode(first, PrintNodes(tail, rest)), f, tags);
        { ScansBodyNode(first, PrintNodes(tail, rest), f, tags); }
        Scan(PrintNodes(tail, rest), f, tags');
        { ScansBody(tail, rest, f, tags'); }
        Scan(rest, f, tags' + Reports(tail, false));
      }
    }
  }

  // ----- The doctype

  lemma LowerKeepsSpaces(s: string)
    requires forall i | 0 <= i < |s| :: IsRegexSpace(s[i])
    ensures Lower(s) == s
  {
  }

  lemma LowersDoctype(d: Doctype)
    requires GoodDoctype(d)
    ensures Lower("<!" + (d.keyword + (d.gap + (d.kind + (d.after + ">")))))
            == "<!doctype" + (d.gap + ("html" + (d.after + ">")))
  {
    var tail := d.after + ">";
    LowerKeepsSpaces(d.gap);
    LowerKeepsSpaces(d.after);
    assert Lower("<!") == "<!" && Lower(">") == ">";
    LowerConcat(d.after, ">");
    LowerConcat(d.kind, tail);
    LowerConcat(d.gap, d.kind + tail);
    LowerConcat(d.keyword, d.gap + (d.kind + tail));
    LowerConcat("<!", d.keyword + (d.gap + (d.kind + tail)));
    Reassociate("<!", "doctype", d.gap + ("html" + tail));
    assert "<!" + "doctype" == "<!doctype";
  }

  lemma Reassociate(a: string, b: string, c: string)
    ensures a + (b + c) == (a + b) + c
  {
  }

  lemma DoctypeParts(start: string, gap: string, kind: string, tail: string)
    requires |start| == 9 && |kind| == 4
    ensures var d := start + (gap + (kind + tail));
            start <= d && d[9..] == gap + (kind + tail) && kind <= d[9 + |gap|..] && d[13 + |gap|..] == tail
  {
    var d := start + (gap + (kind + tail));
    Split(start, gap + (kind + tail));
    Split(gap, kind + tail);
    assert d[9 + |gap|..] == d[9..][|gap|..];
    Split(kind, tail);
    assert d[13 + |gap|..] == d[9 + |gap|..][4..];
  }

  lemma DoctypeIsRecognised(d: Doctype)
    requires GoodDoctype(d)
    ensures IsDoctype("<!" + (d.keyword + (d.gap + (d.kind + (d.after + ">")))))
  {
    var tail := d.after + ">";
    LowersDoctype(d);
    DoctypeParts("<!doctype", d.gap, "html", tail);
    assert !IsRegexSpace(("html" + tail)[0]) && !IsRegexSpace(">"[0]);
    SpanOver(d.gap, "html" + tail, NotRegexSpace);
    SpanOver(d.after, ">", NotRegexSpace);
    Split(d.after, ">");
  }

  lemma NothingBefore(p: string, rest: string)
    requires '>' !in p
    ensures IndexOf(p + ">" + rest, ">") == Some(|p|)
  {
    forall i | 0 <= i < |p| ensures !(">" <= (p + ">" + rest)[i..]) {
      assert (p + ">" + rest)[i..][0] == p[i];
    }
    IndexOfPut(p, ">", rest);
  }

  lemma DoctypeTextLacksGreater(d: Doctype)
    requires GoodDoctype(d)
    ensures d.keyword != "" && d.keyword[0] != '-'
    ensures '>' !in d.keyword + d.gap + d.kind + d.after
  {
    assert Lower(d.keyword)[0] == 'd';
    forall i | 0 <= i < |d.keyword| ensures d.keyword[i] != '>' {
      assert Lower(d.keyword)[i] == "doctype"[i];
    }
    forall i | 0 <= i < |d.kind| ensures d.kind[i] != '>' {
      assert Lower(d.kind)[i] == "html"[i];
    }
  }

  lemma ScansDoctype(d: Doctype, rest: string)
    requires GoodDoctype(d)
    ensures Scan(PrintDoctype(Some(d), rest), BEGIN, []) == Scan(rest, BEGIN.(doctypeSeen := true), [])
  {
    hide Scan, IsDoctype, GoodDoctype;
    var p := d.keyword + d.gap + d.kind + d.after;
    DoctypeTextLacksGreater(d);
    assert p + ">" == d.keyword + (d.gap + (d.kind + (d.after + ">")));
    DoctypeIsRecognised(d);
    ScansDeclaration(p, rest);
  }

  lemma DeclarationParts(p: string, rest: string)
    requires p != "" && p[0] != '-'
    ensures var s := "<!" + (p + ">" + rest);
            && s[0] == '<' && "<!" <= s && !("<!--" <= s) && s[2..] == p + ">" + rest
            && s[..3 + |p|] == "<!" + (p + ">") && s[3 + |p|..] == rest
  {
    var s := "<!" + (p + ">" + rest);
    assert s[2] == p[0];
  }

  lemma ReadsDeclaration(p: string, rest: string)
    requires p != "" && p[0] != '-' && '>' !in p
    ensures Declaration("<!" + (p + ">" + rest)) == Some(("<!" + (p + ">"), rest))
  {
    DeclarationParts(p, rest);
    NothingBefore(p, rest);
  }

  lemma ScansDeclaration(p: string, rest: string)
    requires p != "" && p[0] != '-' && '>' !in p && IsDoctype("<!" + (p + ">"))
    ensures Scan("<!" + (p + ">" + rest), BEGIN, []) == Scan(rest, BEGIN.(doctypeSeen := true), [])
  {
    var s := "<!" + (p + ">" + rest);
    DeclarationParts(p, rest);
    ReadsDeclaration(p, rest);
    calc {
      Scan(s, BEGIN, []);
      { ScansAtMarkup(s, BEGIN, []); }
      ScanMarkup(s, BEGIN, []);
      { assert DoctypeAllowed(BEGIN, "<!" + (p + ">")); }
      Scan(rest, BEGIN.(doctypeSeen := true), []);
    }
  }

  // ----- The round trip

  /** From the start of the document to just before the html tag. */
  lemma ScansUpToHtml(d: Document, rest: string)
    requires WellFormed(d)
    ensures StartTags(PrintNodes(d.lead, PrintDoctype(d.doctype, PrintNodes(d.beforeHtml, rest))))
         == Scan(rest, BEGIN.(doctypeSeen := d.doctype.Some?), [])
  {
    var beforeHtml := PrintNodes(d.beforeHtml, rest);
    ScansMisc(d.lead, PrintDoctype(d.doctype, beforeHtml), BEGIN, []);
    if d.doctype.Some? { ScansDoctype(d.doctype.value, beforeHtml); }
    ScansMisc(d.beforeHtml, rest, BEGIN.(doctypeSeen := d.doctype.Some?), []);
  }

  lemma ScansHtml(e: Element, rest: string, doctypeSeen: bool)
    requires GoodElement(e) && Lower(e.name) == "html"
    ensures Scan(PrintElement(e, rest), BEGIN.(doctypeSeen := doctypeSeen), [])
         == Scan(rest, Flags(doctypeSeen, true, false, false, false), [Report(e, false)])
  {
    assert "html" !in RAW_TEXT;
    ScansOpen(e, rest, BEGIN.(doctypeSeen := doctypeSeen), []);
    assert [] + [Report(e, false)] == [Report(e, false)];
  }

  lemma ScansHeadTag(e: Element, rest: string, doctypeSeen: bool, tags: seq<StartTag>)
    requires GoodElement(e) && Lower(e.name) == "head"
    ensures Scan(PrintElement(e, rest), Flags(doctypeSeen, true, false, false, false), tags)
         == Scan(rest, Flags(doctypeSeen, true, true, true, false), tags + [Report(e, true)])
  {
    assert "head" !in RAW_TEXT;
    ScansOpen(e, rest, Flags(doctypeSeen, true, false, false, false), tags);
  }

  /** From the html tag to just inside the head. */
  lemma ScansHtmlAndHead(d: Document, rest: string)
    requires WellFormed(d)
    ensures Scan(PrintElement(d.html, PrintNodes(d.beforeHead, PrintElement(d.head, rest))),
                 BEGIN.(doctypeSeen := d.doctype.Some?), [])
         == Scan(rest, Flags(d.doctype.Some?, true, true, true, false), [Report(d.html, false), Report(d.head, true)])
  {
    var seen := d.doctype.Some?;
    var tags1 := [Report(d.html, false)];
    var headOpen := PrintElement(d.head, rest);
    assert tags1 + [Report(d.head, true)] == [Report(d.html, false), Report(d.head, true)];
    calc {
      Scan(PrintElement(d.html, PrintNodes(d.beforeHead, headOpen)), BEGIN.(doctypeSeen := seen), []);
      { ScansHtml(d.html, PrintNodes(d.beforeHead, headOpen), seen); }
      Scan(PrintNodes(d.beforeHead, headOpen), Flags(seen, true, false, false, false), tags1);
      { ScansMisc(d.beforeHead, headOpen, Flags(seen, true, false, false, false), tags1); }
      Scan(headOpen, Flags(seen, true, false, false, false), tags1);
      { ScansHeadTag(d.head, rest, seen, tags1); }
      Scan(rest, Flags(seen, true, true, true, false), tags1 + [Report(d.head, true)]);
    }
  }

  /** From just inside the head to the end. */
  lemma ScansFromHead(d: Document, f: Flags, tags: seq<StartTag>)
    requires WellFormed(d) && f.htmlSeen && f.headSeen && f.inHead
    ensures Scan(PrintNodes(d.inHead, PrintCloser(d.headCloser, d.headCloserAfter, PrintNodes(d.body, ""))), f, tags)
         == Some(tags + Reports(d.inHead, true) + Reports(d.body, false))
  {
    var bodyText := PrintNodes(d.body, "");
    var f' := f.(inHead := false, headClosed := true);
    var tags' := tags + Reports(d.inHead, true);
    ScansHead(d.inHead, PrintCloser(d.headCloser, d.headCloserAfter, bodyText), f, tags);
    CloserParses(d.headCloser);
    ScansClose(d.headCloser, d.headCloserAfter, bodyText, f, tags');
    ScansBody(d.body, "", f', tags');
  }

  /**
   Scanning any printed sealed document reports exactly its start tags, in order,
   with their attributes and with the right in-head flag. Comments, text, closing
   tags and everything inside raw text contribute nothing.
   */
  lemma ScanningAPrintedDocument(d: Document)
    requires WellFormed(d)
    ensures StartTags(Print(d)) == Some(Expected(d))
  {
    var headText := PrintNodes(d.inHead, PrintCloser(d.headCloser, d.headCloserAfter, PrintNodes(d.body, "")));
    ScansUpToHtml(d, PrintElement(d.html, PrintNodes(d.beforeHead, PrintElement(d.head, headText))));
    ScansHtmlAndHead(d, headText);
    ScansFromHead(d, Flags(d.doctype.Some?, true, true, true, false), [Report(d.html, false), Report(d.head, true)]);
  }

  /** With distinct names the reported attributes are exactly the printed ones. */
  lemma {:induction false} ReportedAttributes(m: map<string, string>, attributes: seq<Attribute>)
    requires forall i, j | 0 <= i < j < |attributes| :: Lower(attributes[i].name) != Lower(attributes[j].name)
    ensures forall i | 0 <= i < |attributes| ::
              Lower(attributes[i].name) in AttributeMap(m, attributes)
              && AttributeMap(m, attributes)[Lower(attributes[i].name)] == attributes[i].value
    ensures forall key | key in AttributeMap(m, attributes) ::
              key in m || exists i :: 0 <= i < |attributes| && key == Lower(attributes[i].name)
    ensures forall key | key in m && (forall i | 0 <= i < |attributes| :: key != Lower(attributes[i].name)) ::
              key in AttributeMap(m, attributes) && AttributeMap(m, attributes)[key] == m[key]
    decreases |attributes|
  {
    if attributes != [] {
      var a := attributes[0];
      var tail := attributes[1..];
      var m' := m[Lower(a.name) := a.value];
      ReportedAttributes(m', tail);
      assert forall i | 0 <= i < |tail| :: Lower(tail[i].name) != Lower(a.name);
      assert forall i | 1 <= i < |attributes| :: attributes[i] == tail[i - 1];
      forall key | key in AttributeMap(m, attributes) && key !in m
        ensures exists i :: 0 <= i < |attributes| && key == Lower(attributes[i].name)
      {
        if key != Lower(a.name) {
          assert key !in m' && key in AttributeMap(m', tail);
          var i :| 0 <= i < |tail| && key == Lower(tail[i].name);
          assert key == Lower(attributes[i + 1].name);
        } else {
          assert key == Lower(attributes[0].name);
        }
      }
    }
  }
}
