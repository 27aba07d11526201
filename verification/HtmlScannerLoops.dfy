/**
 The scanner as the loops it is in the source: a cursor over the whole text and
 flags updated step by step. Each method computes the corresponding function of
 `HtmlScanner` on the text from its cursor on, and terminates on every input.
 */
module HtmlScannerLoops {
  import opened Wrappers
  import opened HtmlScanner

  /** Advances over characters that do not stop the run. */
  method SkipTo(text: string, start: nat, stop: char -> bool) returns (cursor: nat)
    requires start <= |text|
    ensures cursor == start + Span(text[start..], stop) && cursor <= |text|
  {
    cursor := start;
    while cursor < |text| && !stop(text[cursor])
      invariant start <= cursor <= |text|
      invariant start + Span(text[start..], stop) == cursor + Span(text[cursor..], stop)
    {
      assert text[cursor..][1..] == text[cursor + 1..];
      cursor := cursor + 1;
    }
  }

  method SkipSpaces(text: string, start: nat) returns (cursor: nat)
    requires start <= |text|
    ensures start <= cursor <= |text| && text[cursor..] == DropSpaces(text[start..])
    ensures cursor < |text| ==> !IsSpace(text[cursor])
  {
    cursor := SkipTo(text, start, NotSpace);
    assert text[cursor..] == text[start..][cursor - start..];
  }

  lemma Slices(text: string, start: nat, n: nat)
    requires start + n <= |text|
    ensures text[start..][..n] == text[start..start + n] && text[start..][n..] == text[start + n..]
  {
  }

  method ReadQuoted(text: string, start: nat, closes: char -> bool) returns (r: Option<(string, nat)>)
    requires start <= |text|
    ensures r.None? ==> ParseQuoted(text[start..], closes).None?
    ensures r.Some? ==>
              start <= r.value.1 <= |text| && ParseQuoted(text[start..], closes) == Some((r.value.0, text[r.value.1..]))
  {
    var cursor := SkipTo(text, start, closes);
    if cursor == |text| {
      return None;
    }
    Slices(text, start, cursor - start);
    Slices(text, start, cursor - start + 1);
    return Some((text[start..cursor], cursor + 1));
  }

  method ReadValueAt(text: string, cursor: nat) returns (r: Option<(string, nat)>)
    requires cursor <= |text|
    ensures r.None? ==> ValueAt(text[cursor..]).None?
    ensures r.Some? ==> cursor <= r.value.1 <= |text| && ValueAt(text[cursor..]) == Some((r.value.0, text[r.value.1..]))
  {
    if cursor < |text| && text[cursor] == '"' {
      Slices(text, cursor, 1);
      r := ReadQuoted(text, cursor + 1, IsDoubleQuote);
    } else if cursor < |text| && text[cursor] == '\'' {
      Slices(text, cursor, 1);
      r := ReadQuoted(text, cursor + 1, IsSingleQuote);
    } else {
      var end := SkipTo(text, cursor, EndsBareValue);
      Slices(text, cursor, end - cursor);
      r := if end == cursor then None else Some((text[cursor..end], end));
    }
  }

  /** The value part of an attribute; `None` rejects the tag. */
  method ReadValue(text: string, start: nat) returns (r: Option<(string, nat)>)
    requires start <= |text|
    ensures r.None? ==> ParseValue(text[start..]).None?
    ensures r.Some? ==>
              start <= r.value.1 <= |text| && ParseValue(text[start..]) == Some((r.value.0, text[r.value.1..]))
  {
    if start == |text| || text[start] != '=' {
      return Some(("", start));
    }
    Slices(text, start, 1);
    var cursor := SkipSpaces(text, start + 1);
    r := ReadValueAt(text, cursor);
  }

  method ReadAttribute(text: string, start: nat) returns (r: Option<(string, string, nat)>)
    requires start <= |text|
    ensures r.None? ==> ParseAttribute(text[start..]).None?
    ensures r.Some? ==> start < r.value.2 <= |text|
                        && ParseAttribute(text[start..]) == Some((r.value.0, r.value.1, text[r.value.2..]))
  {
    var cursor := SkipTo(text, start, EndsAttributeName);
    if cursor == start {
      return None;
    }
    assert text[start..][..cursor - start] == text[start..cursor];
    assert text[start..][cursor - start..] == text[cursor..];
    var valueAt := SkipSpaces(text, cursor);
    var value := ReadValue(text, valueAt);
    if value.None? {
      return None;
    }
    return Some((Lower(text[start..cursor]), value.value.0, value.value.1));
  }

  datatype AttributeStep = BadTag | TagDone(tag: Tag, end: nat) | Attribute(key: string, value: string, next: nat)

  /** One turn of the attribute loop. */
  method ReadAttributeStep(text: string, cursor: nat, name: string, closing: bool, attributes: map<string, string>,
                           duplicate: bool)
    returns (r: AttributeStep)
    requires cursor <= |text|
    ensures r.BadTag? ==> ParseAttributes(name, closing, attributes, duplicate, text[cursor..]).None?
    ensures r.TagDone? ==> cursor < r.end <= |text|
                           && ParseAttributes(name, closing, attributes, duplicate, text[cursor..])
                                == Some((r.tag, text[r.end..]))
    ensures r.Attribute? ==> cursor < r.next <= |text|
                             && ParseAttributes(name, closing, attributes, duplicate, text[cursor..])
                             == ParseAttributes(name, closing, attributes[r.key := r.value],
                                                duplicate || r.key in attributes, text[r.next..])
  {
    var at := SkipSpaces(text, cursor);
    if at == |text| {
      return BadTag;
    }
    if text[at] == '>' {
      assert text[at..][1..] == text[at + 1..];
      return TagDone(Tag(name, closing, false, duplicate, attributes), at + 1);
    }
    if at + 1 < |text| && text[at] == '/' && text[at + 1] == '>' {
      assert text[at..][2..] == text[at + 2..];
      return TagDone(Tag(name, closing, true, duplicate, attributes), at + 2);
    }
    if closing {
      return BadTag;
    }
    var attribute := ReadAttribute(text, at);
    if attribute.None? {
      return BadTag;
    }
    return Attribute(attribute.value.0, attribute.value.1, attribute.value.2);
  }

  /** The attribute loop of `parseConservativeHtmlTag`. */
  method ReadAttributes(text: string, start: nat, name: string, closing: bool) returns (r: Option<(Tag, nat)>)
    requires start <= |text|
    ensures r.None? ==> ParseAttributes(name, closing, map[], false, text[start..]).None?
    ensures r.Some? ==> start < r.value.1 <= |text|
                        && ParseAttributes(name, closing, map[], false, text[start..])
                             == Some((r.value.0, text[r.value.1..]))
  {
    var cursor := start;
    var attributes: map<string, string> := map[];
    var duplicate := false;
    while true
      invariant start <= cursor <= |text|
      invariant ParseAttributes(name, closing, map[], false, text[start..])
             == ParseAttributes(name, closing, attributes, duplicate, text[cursor..])
      decreases |text| - cursor
    {
      var step := ReadAttributeStep(text, cursor, name, closing, attributes, duplicate);
      match step {
        case BadTag => return None;
        case TagDone(tag, end) => return Some((tag, end));
        case Attribute(key, value, next) =>
          duplicate := duplicate || key in attributes;
          attributes := attributes[key := value];
          cursor := next;
      }
    }
  }

  method ReadHeader(text: string, start: nat) returns (r: Option<(bool, string, nat)>)
    requires start < |text|
    ensures r.None? ==> TagHeader(text[start..]).None?
    ensures r.Some? ==> start < r.value.2 <= |text|
                        && TagHeader(text[start..]) == Some((r.value.0, r.value.1, text[r.value.2..]))
  {
    hide Lower, Span, TagHeader;
    var closing := start + 1 < |text| && text[start + 1] == '/';
    var nameStart := if closing then start + 2 else start + 1;
    var cursor := SkipTo(text, nameStart, EndsTagName);
    HeaderAt(text, start, cursor);
    if cursor == nameStart || '\0' in text[nameStart..cursor] {
      return None;
    }
    return Some((closing, Lower(text[nameStart..cursor]), cursor));
  }

  lemma HeaderAt(text: string, start: nat, end: nat)
    requires start < |text|
    requires var closing := start + 1 < |text| && text[start + 1] == '/';
             var from := if closing then start + 2 else start + 1;
             end == from + Span(text[from..], EndsTagName) && end <= |text|
    ensures var closing := start + 1 < |text| && text[start + 1] == '/';
            var from := if closing then start + 2 else start + 1;
            TagHeader(text[start..])
            == if end == from || '\0' in text[from..end] then None
               else Some((closing, Lower(text[from..end]), text[end..]))
  {
    hide Lower, Span;
    var from := if start + 1 < |text| && text[start + 1] == '/' then start + 2 else start + 1;
    assert |text[start..]| > 1 ==> text[start..][1] == text[start + 1];
    Slices(text, start, from - start);
    Slices(text, from, end - from);
  }

  /** `parseConservativeHtmlTag`: the tag at a "<" and the offset just after it. */
  method ReadTag(text: string, start: nat) returns (r: Option<(Tag, nat)>)
    requires start < |text|
    ensures r.None? ==> ParseTag(text[start..]).None?
    ensures r.Some? ==> start < r.value.1 <= |text| && ParseTag(text[start..]) == Some((r.value.0, text[r.value.1..]))
  {
    var header := ReadHeader(text, start);
    if header.None? {
      return None;
    }
    r := ReadAttributes(text, header.value.2, header.value.1, header.value.0);
  }

  datatype CandidateAt = AmbiguousAt | NotACloserAt | ClosedAt(end: nat)

  method CheckCandidate(text: string, name: string, contentStart: nat, at: nat) returns (r: CandidateAt)
    requires contentStart + at + 2 + |name| <= |text|
    ensures r.AmbiguousAt? ==> JudgeCandidate(text[contentStart..], name, at) == Ambiguous
    ensures r.NotACloserAt? ==> JudgeCandidate(text[contentStart..], name, at) == NotACloser
    ensures r.ClosedAt? ==> contentStart < r.end <= |text|
                            && JudgeCandidate(text[contentStart..], name, at) == Closed(text[r.end..])
  {
    hide ParseTag;
    var after := contentStart + at + 2 + |name|;
    assert after < |text| ==> text[after] == text[contentStart..][at + 2 + |name|];
    if after == |text| || !(text[after] == '>' || IsSpace(text[after])) {
      return NotACloserAt;
    }
    if AmbiguousScript(name, Lower(text[contentStart..])[..at]) {
      return AmbiguousAt;
    }
    Slices(text, contentStart, at);
    r := CheckTag(text, name, contentStart + at);
  }

  method CheckTag(text: string, name: string, start: nat) returns (r: CandidateAt)
    requires start < |text|
    ensures !r.AmbiguousAt?
    ensures r.NotACloserAt? ==> JudgeTag(ParseTag(text[start..]), name) == NotACloser
    ensures r.ClosedAt? ==> start < r.end <= |text| && JudgeTag(ParseTag(text[start..]), name) == Closed(text[r.end..])
  {
    var closer := ReadTag(text, start);
    if closer.Some? && closer.value.0.closing && closer.value.0.name == name {
      return ClosedAt(closer.value.1);
    }
    return NotACloserAt;
  }

  datatype RawStep = GiveUp | Found(end: nat) | Again(next: nat)

  /** One turn of the search loop. */
  method SearchFrom(text: string, name: string, contentStart: nat, from: nat) returns (r: RawStep)
    requires contentStart + from < |text|
    ensures r.GiveUp? ==> SearchTurn(text[contentStart..], name, from) == Hopeless
    ensures r.Found? ==>
              && contentStart < r.end <= |text|
              && SearchTurn(text[contentStart..], name, from) == FoundCloser(text[r.end..])
    ensures r.Again? ==> from < r.next && contentStart + r.next <= |text|
                         && SearchTurn(text[contentStart..], name, from) == SearchOn(r.next)
  {
    var found := NextCandidate(text[contentStart..], name, from);
    if found.None? {
      return GiveUp;
    }
    var judged := CheckCandidate(text, name, contentStart, found.value);
    match judged
    case AmbiguousAt => return GiveUp;
    case ClosedAt(end) => return Found(end);
    case NotACloserAt => return Again(found.value + 2 + |name|);
  }

  /** `findRawTextElementEnd`: the offset just after the element's closing tag. */
  method FindRawTextElementEnd(text: string, name: string, contentStart: nat) returns (r: Option<nat>)
    requires contentStart <= |text|
    ensures r.None? ==> RawTextEnd(text[contentStart..], name, 0).None?
    ensures r.Some? ==>
              contentStart < r.value <= |text| && RawTextEnd(text[contentStart..], name, 0) == Some(text[r.value..])
  {
    var from := 0;
    while contentStart + from < |text|
      invariant contentStart + from <= |text|
      invariant RawTextEnd(text[contentStart..], name, 0) == RawTextEnd(text[contentStart..], name, from)
      decreases |text| - from
    {
      var step := SearchFrom(text, name, contentStart, from);
      match step {
        case GiveUp => return None;
        case Found(end) => return Some(end);
        case Again(next) => from := next;
      }
    }
    return None;
  }

  datatype Step = Reject | Continue(flags: Flags, tags: seq<StartTag>, cursor: nat)

  method SkipComment(text: string, start: nat) returns (r: Option<nat>)
    requires start + 4 <= |text|
    ensures r.None? ==> CommentEnd(text[start..]).None?
    ensures r.Some? ==> start < r.value <= |text| && CommentEnd(text[start..]) == Some(text[r.value..])
  {
    var end := IndexOf(text[start..][4..], "-->");
    if end.None? { return None; }
    Slices(text, start, 4 + end.value + 3);
    return Some(start + 4 + end.value + 3);
  }

  method ReadDeclaration(text: string, start: nat) returns (r: Option<(string, nat)>)
    requires start + 2 <= |text|
    ensures r.None? ==> Declaration(text[start..]).None?
    ensures r.Some? ==>
              start < r.value.1 <= |text| && Declaration(text[start..]) == Some((r.value.0, text[r.value.1..]))
  {
    var end := IndexOf(text[start..][2..], ">");
    if end.None? { return None; }
    Slices(text, start, 3 + end.value);
    return Some((text[start..][..3 + end.value], start + 3 + end.value));
  }

  /** One markup item: what the loop body does after the gap check. */
  method ReadMarkup(text: string, start: nat, f: Flags, tags: seq<StartTag>) returns (r: Step)
    requires start < |text| && text[start] == '<'
    ensures r.Reject? ==> ScanMarkup(text[start..], f, tags).None?
    ensures r.Continue? ==> start < r.cursor <= |text|
                            && ScanMarkup(text[start..], f, tags) == Scan(text[r.cursor..], r.flags, r.tags)
  {
    if "<!--" <= text[start..] {
      var end := SkipComment(text, start);
      return if end.Some? then Continue(f, tags, end.value) else Reject;
    }
    if "<!" <= text[start..] {
      var declaration := ReadDeclaration(text, start);
      return if declaration.Some? && DoctypeAllowed(f, declaration.value.0)
             then Continue(f.(doctypeSeen := true), tags, declaration.value.1) else Reject;
    }
    if "<?" <= text[start..] { return Reject; }
    var tag := ReadTag(text, start);
    if tag.None? { return Reject; }
    r := ReadTagEffect(text, tag.value.0, tag.value.1, f, tags);
  }

  method ReadTagEffect(text: string, tag: Tag, end: nat, f: Flags, tags: seq<StartTag>) returns (r: Step)
    requires end <= |text|
    ensures r.Reject? ==> ScanTag(tag, text[end..], f, tags).None?
    ensures r.Continue? ==> end <= r.cursor <= |text|
                            && ScanTag(tag, text[end..], f, tags) == Scan(text[r.cursor..], r.flags, r.tags)
  {
    if tag.duplicate { return Reject; }
    if tag.closing {
      var f' := OnClose(f, tag.name);
      return if f'.Some? then Continue(f'.value, tags, end) else Reject;
    }
    var f' := OnOpen(f, tag.name);
    if f'.None? { return Reject; }
    var tags' := tags + [StartTag(tag.name, tag.attributes, tag.selfClosing, f'.value.inHead)];
    if tag.name in RAW_TEXT {
      var rawEnd := FindRawTextElementEnd(text, tag.name, end);
      return if rawEnd.Some? then Continue(f'.value, tags', rawEnd.value) else Reject;
    }
    return Continue(f'.value, tags', end);
  }

  datatype Turn = Answer(answer: Option<seq<StartTag>>) | Onwards(flags: Flags, tags: seq<StartTag>, cursor: nat)

  /** One turn of the scanning loop: the gap up to the next "<", then one markup item. */
  method ScanOnce(text: string, cursor: nat, flags: Flags, tags: seq<StartTag>) returns (r: Turn)
    requires cursor <= |text|
    ensures r.Answer? ==> Scan(text[cursor..], flags, tags) == r.answer
    ensures r.Onwards? ==>
              && cursor < r.cursor <= |text|
              && Scan(text[cursor..], flags, tags) == Scan(text[r.cursor..], r.flags, r.tags)
  {
    hide ScanMarkup;
    var start := SkipTo(text, cursor, IsLess);
    Slices(text, cursor, start - cursor);
    if GapForbidden(flags, text[cursor..start]) {
      return Answer(None);
    }
    if start == |text| {
      return Answer(Accept(flags, tags));
    }
    var step := ReadMarkup(text, start, flags, tags);
    if step.Reject? {
      return Answer(None);
    }
    return Onwards(step.flags, step.tags, step.cursor);
  }

  /** `conservativeHtmlStartTags`. */
  method ConservativeHtmlStartTags(text: string) returns (r: Option<seq<StartTag>>)
    ensures r == StartTags(text)
  {
    var cursor := 0;
    var flags := BEGIN;
    var tags: seq<StartTag> := [];
    assert text[0..] == text;
    while true
      invariant cursor <= |text|
      invariant StartTags(text) == Scan(text[cursor..], flags, tags)
      decreases |text| - cursor
    {
      var turn := ScanOnce(text, cursor, flags, tags);
      match turn {
        case Answer(answer) => return answer;
        case Onwards(flags', tags', cursor') => flags, tags, cursor := flags', tags', cursor';
      }
    }
  }
}
