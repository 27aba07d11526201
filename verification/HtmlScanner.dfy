/**
 The conservative HTML scanner of the service worker (apps/web/public/sw.js):
 what it accepts and which start tags it reports. The functions here consume the
 remaining text; `HtmlScannerLoops` has the cursor loops and proves they compute
 the same. Documents are ASCII, so lower-casing keeps every offset.
 */
module HtmlScanner {
  import opened Wrappers

  // ----- Characters and substrings

  predicate IsSpace(c: char) {
    c == ' ' || c == '\t' || c == '\n' || c == '\U{000C}' || c == '\r'
  }

  /** What the regular expression class \s matches in ASCII. */
  predicate IsRegexSpace(c: char) {
    IsSpace(c) || c == '\U{000B}'
  }

  predicate NotSpace(c: char) { !IsSpace(c) }
  predicate NotRegexSpace(c: char) { !IsRegexSpace(c) }
  predicate EndsTagName(c: char) { IsSpace(c) || c == '/' || c == '>' }
  predicate EndsAttributeName(c: char) { IsSpace(c) || c == '=' || c == '>' || c == '/' }
  predicate EndsBareValue(c: char) { IsSpace(c) || c == '>' }
  predicate IsDoubleQuote(c: char) { c == '"' }
  predicate IsSingleQuote(c: char) { c == '\'' }
  predicate IsLess(c: char) { c == '<' }

  /** Length of the longest prefix without a stopping character. */
  function Span(s: string, stop: char -> bool): (n: nat)
    ensures n <= |s|
    ensures forall i | 0 <= i < n :: !stop(s[i])
    ensures n < |s| ==> stop(s[n])
  {
    if s == [] || stop(s[0]) then 0 else 1 + Span(s[1..], stop)
  }

  function DropSpaces(s: string): string {
    s[Span(s, NotSpace)..]
  }

  function LowerChar(c: char): char {
    if 'A' <= c <= 'Z' then (c as int + 32) as char else c
  }

  function Lower(s: string): (r: string)
    ensures |r| == |s|
    ensures forall i | 0 <= i < |s| :: r[i] == LowerChar(s[i])
  {
    seq(|s|, i requires 0 <= i < |s| => LowerChar(s[i]))
  }

  /** `indexOf`: the first occurrence. */
  function IndexOf(s: string, pattern: string): (r: Option<nat>)
    ensures r.Some? ==> r.value + |pattern| <= |s| && s[r.value..r.value + |pattern|] == pattern
  {
    if pattern <= s then Some(0)
    else if s == [] then None
    else
      match IndexOf(s[1..], pattern)
      case None => None
      case Some(i) => Some(i + 1)
  }

  predicate Contains(s: string, pattern: string) {
    IndexOf(s, pattern).Some?
  }

  // ----- One tag

  datatype Tag = Tag(name: string, closing: bool, selfClosing: bool, duplicate: bool, attributes: map<string, string>)

  /** A quoted value, with `s` just after the opening quote. */
  function ParseQuoted(s: string, closes: char -> bool): (r: Option<(string, string)>)
    ensures r.Some? ==> |r.value.1| < |s|
  {
    var n := Span(s, closes);
    if n == |s| then None else Some((s[..n], s[n + 1..]))
  }

  /** A quoted or bare value. */
  function ValueAt(v: string): (r: Option<(string, string)>)
    ensures r.Some? ==> |r.value.1| <= |v|
  {
    if v != [] && v[0] == '"' then ParseQuoted(v[1..], IsDoubleQuote)
    else if v != [] && v[0] == '\'' then ParseQuoted(v[1..], IsSingleQuote)
    else
      var n := Span(v, EndsBareValue);
      if n == 0 then None else Some((v[..n], v[n..]))
  }

  /** An attribute value after its name, and the text after it. */
  function ParseValue(s: string): (r: Option<(string, string)>)
    ensures r.Some? ==> |r.value.1| <= |s|
  {
    if s == [] || s[0] != '=' then Some(("", s)) else ValueAt(DropSpaces(s[1..]))
  }

  /** One attribute: its lower-cased name, its value and the text after it. */
  function ParseAttribute(s: string): (r: Option<(string, string, string)>)
    ensures r.Some? ==> |r.value.2| < |s|
  {
    var n := Span(s, EndsAttributeName);
    if n == 0 then None
    else
      match ParseValue(DropSpaces(s[n..]))
      case None => None
      case Some((value, rest)) => Some((Lower(s[..n]), value, rest))
  }

  /** The attribute loop, up to and including the tag's end. */
  function ParseAttributes(name: string, closing: bool, attributes: map<string, string>, duplicate: bool, s: string)
    : (r: Option<(Tag, string)>)
    ensures r.Some? ==> |r.value.1| < |s|
    decreases |s|
  {
    var t := DropSpaces(s);
    if t == [] then None
    else if t[0] == '>' then Some((Tag(name, closing, false, duplicate, attributes), t[1..]))
    else if |t| >= 2 && t[0] == '/' && t[1] == '>' then Some((Tag(name, closing, true, duplicate, attributes), t[2..]))
    else if closing then None
    else
      match ParseAttribute(t)
      case None => None
      case Some((attribute, value, rest)) =>
        ParseAttributes(name, closing, attributes[attribute := value], duplicate || attribute in attributes, rest)
  }

  /** The start of a tag: whether it closes, its lower-cased name, and the text after the name. */
  function TagHeader(s: string): (r: Option<(bool, string, string)>)
    ensures r.Some? ==> |r.value.2| < |s|
  {
    if s == [] then None
    else
      var closing := |s| > 1 && s[1] == '/';
      var body := if closing then s[2..] else s[1..];
      var n := Span(body, EndsTagName);
      if n == 0 || '\0' in body[..n] then None
      else Some((closing, Lower(body[..n]), body[n..]))
  }

  /** `parseConservativeHtmlTag` on text starting at "<": the tag and the text after it. */
  function ParseTag(s: string): (r: Option<(Tag, string)>)
    ensures r.Some? ==> |r.value.1| < |s|
  {
    match TagHeader(s)
    case None => None
    case Some((closing, name, rest)) => ParseAttributes(name, closing, map[], false, rest)
  }

  // ----- Raw text elements

  const RAW_TEXT: set<string> :=
    {"iframe", "noembed", "noframes", "noscript", "script", "style", "textarea", "title", "xmp"}

  const DIRECT_HEAD: set<string> :=
    {"base", "basefont", "bgsound", "link", "meta", "noframes", "noscript", "script", "style", "title"}

  predicate AmbiguousScript(name: string, raw: string) {
    name == "script" && (Contains(raw, "<!--") || Contains(raw, "-->") || Contains(raw, "<script"))
  }

  datatype Candidate = Ambiguous | NotACloser | Closed(rest: string)

  /** What a match of "</name" at offset `at` of the content turns out to be. */
  function JudgeCandidate(content: string, name: string, at: nat): (r: Candidate)
    requires at + 2 + |name| <= |content|
    ensures r.Closed? ==> |r.rest| < |content|
  {
    var after := at + 2 + |name|;
    if after == |content| || !(content[after] == '>' || IsSpace(content[after])) then NotACloser
    else if AmbiguousScript(name, Lower(content)[..at]) then Ambiguous
    else JudgeTag(ParseTag(content[at..]), name)
  }

  function JudgeTag(parsed: Option<(Tag, string)>, name: string): Candidate {
    match parsed
    case None => NotACloser
    case Some((tag, rest)) => if tag.closing && tag.name == name then Closed(rest) else NotACloser
  }

  /** The next match of "</name" in the lower-cased content. */
  function NextCandidate(content: string, name: string, from: nat): (r: Option<nat>)
    requires from <= |content|
    ensures r.Some? ==> from <= r.value && r.value + 2 + |name| <= |content|
  {
    match IndexOf(Lower(content)[from..], "</" + name)
    case None => None
    case Some(i) => Some(from + i)
  }

  datatype Search = Hopeless | FoundCloser(rest: string) | SearchOn(next: nat)

  /** One turn of the search for the closing tag. */
  function SearchTurn(content: string, name: string, from: nat): (r: Search)
    requires from <= |content|
    ensures r.SearchOn? ==> from < r.next
    ensures r.FoundCloser? ==> |r.rest| < |content|
  {
    match NextCandidate(content, name, from)
    case None => Hopeless
    case Some(at) =>
      match JudgeCandidate(content, name, at)
      case Ambiguous => Hopeless
      case Closed(rest) => FoundCloser(rest)
      case NotACloser => SearchOn(at + 2 + |name|)
  }

  /** `findRawTextElementEnd`: the text after the closing tag, searching from offset `from` of the content. */
  function RawTextEnd(content: string, name: string, from: nat): (r: Option<string>)
    ensures r.Some? ==> |r.value| < |content|
    decreases |content| - from
  {
    if from >= |content| then None
    else
      match SearchTurn(content, name, from)
      case Hopeless => None
      case FoundCloser(rest) => Some(rest)
      case SearchOn(next) => RawTextEnd(content, name, next)
  }

  // ----- The document

  datatype Flags = Flags(doctypeSeen: bool, htmlSeen: bool, headSeen: bool, inHead: bool, headClosed: bool)

  datatype StartTag = StartTag(name: string, attributes: map<string, string>, selfClosing: bool, inHead: bool)

  predicate AllSpace(s: string) {
    forall i | 0 <= i < |s| :: IsSpace(s[i])
  }

  /** The pattern for an HTML doctype declaration, case-insensitively. */
  predicate IsDoctype(declaration: string) {
    var d := Lower(declaration);
    "<!doctype" <= d &&
    var gap := Span(d[9..], NotRegexSpace);
    gap >= 1 && "html" <= d[9 + gap..] &&
    var tail := d[13 + gap..];
    tail[Span(tail, NotRegexSpace)..] == ">"
  }

  /** The state after an accepted closing tag, if it is accepted. */
  function OnClose(f: Flags, name: string): Option<Flags> {
    if !f.headSeen then None
    else if name == "head" then if f.inHead then Some(f.(inHead := false, headClosed := true)) else None
    else if f.inHead then None
    else Some(f)
  }

  /** The state in which an accepted start tag is reported, if it is accepted. */
  function OnOpen(f: Flags, name: string): Option<Flags> {
    if name == "template" then None
    else if !f.headSeen then
      if name == "html" then if f.htmlSeen then None else Some(f.(htmlSeen := true))
      else if name == "head" then
        if !f.htmlSeen || f.headClosed || f.inHead then None else Some(f.(headSeen := true, inHead := true))
      else None
    else if name == "html" || name == "head" then None
    else if name == "body" then if f.inHead || !f.headClosed then None else Some(f)
    else if f.inHead && name !in DIRECT_HEAD then None
    else Some(f)
  }

  function Accept(f: Flags, tags: seq<StartTag>): Option<seq<StartTag>> {
    if f.htmlSeen && f.headSeen && f.headClosed then Some(tags) else None
  }

  predicate GapForbidden(f: Flags, gap: string) {
    (!f.headSeen || f.inHead) && !AllSpace(gap)
  }

  /** The scanning loop on the remaining text. */
  function Scan(s: string, f: Flags, tags: seq<StartTag>): Option<seq<StartTag>>
    decreases |s|, 1
  {
    var gap := Span(s, IsLess);
    if GapForbidden(f, s[..gap]) then None
    else if gap == |s| then Accept(f, tags)
    else ScanMarkup(s[gap..], f, tags)
  }

  /** The text after a comment. */
  function CommentEnd(s: string): (r: Option<string>)
    requires |s| >= 4
    ensures r.Some? ==> |r.value| < |s|
  {
    match IndexOf(s[4..], "-->")
    case None => None
    case Some(i) => Some(s[4 + i + 3..])
  }

  /** A declaration including its ">", and the text after it. */
  function Declaration(s: string): (r: Option<(string, string)>)
    requires |s| >= 2
    ensures r.Some? ==> |r.value.1| < |s|
  {
    match IndexOf(s[2..], ">")
    case None => None
    case Some(i) => Some((s[..3 + i], s[3 + i..]))
  }

  predicate DoctypeAllowed(f: Flags, declaration: string) {
    !f.doctypeSeen && !f.htmlSeen && !f.headSeen && IsDoctype(declaration)
  }

  /** One comment, declaration or tag at the start of the remaining text. */
  function ScanMarkup(s: string, f: Flags, tags: seq<StartTag>): Option<seq<StartTag>>
    requires s != [] && s[0] == '<'
    decreases |s|, 0
  {
    if "<!--" <= s then
      match CommentEnd(s)
      case None => None
      case Some(rest) => Scan(rest, f, tags)
    else if "<!" <= s then
      match Declaration(s)
      case None => None
      case Some((declaration, rest)) =>
        if DoctypeAllowed(f, declaration) then Scan(rest, f.(doctypeSeen := true), tags) else None
    else if "<?" <= s then None
    else
      match ParseTag(s)
      case None => None
      case Some((tag, rest)) => ScanTag(tag, rest, f, tags)
  }

  function ScanTag(tag: Tag, rest: string, f: Flags, tags: seq<StartTag>): Option<seq<StartTag>>
    decreases |rest|, 2
  {
    if tag.duplicate then None
    else if tag.closing then
      match OnClose(f, tag.name)
      case None => None
      case Some(f') => Scan(rest, f', tags)
    else
      match OnOpen(f, tag.name)
      case None => None
      case Some(f') =>
        var tags' := tags + [StartTag(tag.name, tag.attributes, tag.selfClosing, f'.inHead)];
        if tag.name in RAW_TEXT then
          match RawTextEnd(rest, tag.name, 0)
          case None => None
          case Some(after) => Scan(after, f', tags')
        else Scan(rest, f', tags')
  }

  const BEGIN := Flags(false, false, false, false, false)

  /** `conservativeHtmlStartTags`. */
  function StartTags(document: string): Option<seq<StartTag>> {
    Scan(document, BEGIN, [])
  }
}
