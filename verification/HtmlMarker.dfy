/**
 What the scanner guarantees of every document it accepts, and the build-marker
 test that relies on it (apps/web/public/sw.js, `documentHasExactBuildMarker`).
 */
module HtmlMarker {
  import opened Wrappers
  import opened HtmlScanner
  import opened HtmlScannerLoops
  import HtmlRoundTrip

  // ----- Every accepted document has one html, one explicit head, then the rest

  ghost predicate HeadFirst(tags: seq<StartTag>) {
    && |tags| >= 2
    && tags[0].name == "html" && !tags[0].inHead
    && tags[1].name == "head" && tags[1].inHead
    && (forall i | 2 <= i < |tags| :: tags[i].name != "html" && tags[i].name != "head" && tags[i].name != "template")
    && (forall i | 2 <= i < |tags| && tags[i].inHead :: tags[i].name in DIRECT_HEAD)
    && (forall i | 2 <= i < |tags| && tags[i].name == "body" :: !tags[i].inHead)
    && (forall i, j | 1 <= i < j < |tags| && tags[j].inHead :: tags[i].inHead)
  }

  ghost predicate Shape(f: Flags, tags: seq<StartTag>) {
    if !f.htmlSeen then tags == [] && !f.headSeen && !f.inHead && !f.headClosed
    else if !f.headSeen then |tags| == 1 && tags[0].name == "html" && !tags[0].inHead && !f.inHead && !f.headClosed
    else
      && HeadFirst(tags)
      && f.headClosed == !f.inHead
      && (f.inHead ==> forall i | 1 <= i < |tags| :: tags[i].inHead)
  }

  lemma OpeningKeepsShape(f: Flags, tags: seq<StartTag>, tag: Tag)
    requires Shape(f, tags) && OnOpen(f, tag.name).Some?
    ensures var f' := OnOpen(f, tag.name).value;
            Shape(f', tags + [StartTag(tag.name, tag.attributes, tag.selfClosing, f'.inHead)])
  {
  }

  lemma ClosingKeepsShape(f: Flags, tags: seq<StartTag>, name: string)
    requires Shape(f, tags) && OnClose(f, name).Some?
    ensures Shape(OnClose(f, name).value, tags)
  {
  }

  lemma {:induction false} ScanKeepsShape(s: string, f: Flags, tags: seq<StartTag>)
    requires Shape(f, tags)
    ensures Scan(s, f, tags).Some? ==> HeadFirst(Scan(s, f, tags).value)
    decreases |s|, 1
  {
    var gap := Span(s, IsLess);
    if !GapForbidden(f, s[..gap]) && gap < |s| {
      MarkupKeepsShape(s[gap..], f, tags);
    }
  }

  lemma {:induction false} MarkupKeepsShape(s: string, f: Flags, tags: seq<StartTag>)
    requires s != [] && s[0] == '<' && Shape(f, tags)
    ensures ScanMarkup(s, f, tags).Some? ==> HeadFirst(ScanMarkup(s, f, tags).value)
    decreases |s|, 0
  {
    if "<!--" <= s {
      var end := CommentEnd(s);
      if end.Some? { ScanKeepsShape(end.value, f, tags); }
    } else if "<!" <= s {
      var declaration := Declaration(s);
      if declaration.Some? { ScanKeepsShape(declaration.value.1, f.(doctypeSeen := true), tags); }
    } else {
      var tag := ParseTag(s);
      if tag.Some? { TagKeepsShape(tag.value.0, tag.value.1, f, tags); }
    }
  }

  lemma {:induction false} TagKeepsShape(tag: Tag, rest: string, f: Flags, tags: seq<StartTag>)
    requires Shape(f, tags)
    ensures ScanTag(tag, rest, f, tags).Some? ==> HeadFirst(ScanTag(tag, rest, f, tags).value)
    decreases |rest|, 2
  {
    if tag.closing {
      var f' := OnClose(f, tag.name);
      if f'.Some? {
        ClosingKeepsShape(f, tags, tag.name);
        ScanKeepsShape(rest, f'.value, tags);
      }
    } else {
      var f' := OnOpen(f, tag.name);
      if f'.Some? {
        OpeningKeepsShape(f, tags, tag);
        var tags' := tags + [StartTag(tag.name, tag.attributes, tag.selfClosing, f'.value.inHead)];
        var raw := RawTextEnd(rest, tag.name, 0);
        if raw.Some? { ScanKeepsShape(raw.value, f'.value, tags'); }
        ScanKeepsShape(rest, f'.value, tags');
      }
    }
  }

  /** Whatever the input, an accepted document reports html, then head, then a run of head elements, then the rest. */
  lemma AcceptedDocumentsAreSealed(document: string)
    ensures StartTags(document).Some? ==> HeadFirst(StartTags(document).value)
  {
    ScanKeepsShape(document, BEGIN, []);
  }

  // ----- The build marker

  const MARKER_NAME := "handleplan-public-build-id"

  predicate NamesMarker(t: StartTag) {
    t.name == "meta" && "name" in t.attributes && t.attributes["name"] == MARKER_NAME
  }

  /** A meta name written with a character reference could decode to the marker. */
  predicate Suspicious(t: StartTag) {
    t.name == "meta" && "name" in t.attributes && '&' in t.attributes["name"]
  }

  predicate CarriesBuild(t: StartTag, buildId: string) {
    t.inHead && "content" in t.attributes && t.attributes["content"] == buildId
  }

  /** Exactly one marker, inside the head, carrying this build; no suspicious names. */
  ghost predicate ExactMarker(tags: seq<StartTag>, buildId: string) {
    NoneSuspicious(tags) && exists i :: SoleMarkerAt(tags, buildId, i)
  }

  ghost predicate NoneSuspicious(tags: seq<StartTag>) {
    forall i | 0 <= i < |tags| :: !Suspicious(tags[i])
  }

  ghost predicate SoleMarkerAt(tags: seq<StartTag>, buildId: string, i: int) {
    && 0 <= i < |tags| && NamesMarker(tags[i]) && CarriesBuild(tags[i], buildId)
    && forall j | 0 <= j < |tags| && NamesMarker(tags[j]) :: j == i
  }

  /** `documentHasExactBuildMarker`. */
  method DocumentHasExactBuildMarker(text: string, buildId: string) returns (ok: bool)
    ensures ok <==> StartTags(text).Some? && ExactMarker(StartTags(text).value, buildId)
  {
    var scanned := ConservativeHtmlStartTags(text);
    if scanned.None? {
      return false;
    }
    var tags := scanned.value;
    var matching := 0;
    ghost var at := 0;
    for i := 0 to |tags|
      invariant forall k | 0 <= k < i :: !Suspicious(tags[k])
      invariant matching == 0 ==> forall k | 0 <= k < i :: !NamesMarker(tags[k])
      invariant matching >= 1 ==> at < i && NamesMarker(tags[at]) && CarriesBuild(tags[at], buildId)
      invariant matching == 1 ==> forall k | 0 <= k < i && NamesMarker(tags[k]) :: k == at
      invariant matching > 1 ==> exists k :: 0 <= k < i && NamesMarker(tags[k]) && k != at
    {
      if Suspicious(tags[i]) {
        return false;
      }
      if NamesMarker(tags[i]) {
        if !CarriesBuild(tags[i], buildId) {
          return false;
        }
        if matching == 0 { at := i; }
        matching := matching + 1;
      }
    }
    assert matching == 1 ==> SoleMarkerAt(tags, buildId, at);
    return matching == 1;
  }

  /**
   On a printed sealed document the test sees exactly the document's own meta
   elements: neither comments, text nor raw text can forge or hide the marker.
   */
  lemma MarkerOfAPrintedDocument(d: HtmlRoundTrip.Document, buildId: string)
    requires HtmlRoundTrip.WellFormed(d)
    ensures StartTags(HtmlRoundTrip.Print(d)).Some?
    ensures ExactMarker(StartTags(HtmlRoundTrip.Print(d)).value, buildId)
        <==> ExactMarker(HtmlRoundTrip.Reports(d.inHead, true) + HtmlRoundTrip.Reports(d.body, false), buildId)
  {
    HtmlRoundTrip.ScanningAPrintedDocument(d);
    var inner := HtmlRoundTrip.Reports(d.inHead, true) + HtmlRoundTrip.Reports(d.body, false);
    var front := [HtmlRoundTrip.Report(d.html, false), HtmlRoundTrip.Report(d.head, true)];
    assert HtmlRoundTrip.Expected(d) == front + inner;
    MarkerIgnoresFront(front, inner, buildId);
  }

  lemma MarkerIgnoresFront(front: seq<StartTag>, inner: seq<StartTag>, buildId: string)
    requires forall i | 0 <= i < |front| :: front[i].name != "meta"
    ensures ExactMarker(front + inner, buildId) <==> ExactMarker(inner, buildId)
  {
    SuspicionIgnoresFront(front, inner);
    if i :| SoleMarkerAt(front + inner, buildId, i) {
      assert i >= |front|;
      SoleMarkerShifts(front, inner, buildId, i - |front|);
    }
    if i :| SoleMarkerAt(inner, buildId, i) {
      SoleMarkerShifts(front, inner, buildId, i);
    }
  }

  lemma SuspicionIgnoresFront(front: seq<StartTag>, inner: seq<StartTag>)
    requires forall i | 0 <= i < |front| :: front[i].name != "meta"
    ensures NoneSuspicious(front + inner) <==> NoneSuspicious(inner)
  {
    var tags := front + inner;
    assert forall k | 0 <= k < |inner| :: tags[|front| + k] == inner[k];
  }

  lemma SoleMarkerShifts(front: seq<StartTag>, inner: seq<StartTag>, buildId: string, i: nat)
    requires forall k | 0 <= k < |front| :: front[k].name != "meta"
    requires i < |inner|
    ensures SoleMarkerAt(inner, buildId, i) <==> SoleMarkerAt(front + inner, buildId, |front| + i)
  {
    var tags := front + inner;
    var n := |front|;
    assert forall k | 0 <= k < |inner| :: tags[n + k] == inner[k];
    assert forall k | 0 <= k < |tags| :: tags[k] == if k < n then front[k] else inner[k - n];
  }

  /** The marker test in its own words. */
  lemma ExactMarkerIs(tags: seq<StartTag>, buildId: string)
    ensures ExactMarker(tags, buildId) <==>
              && (forall i | 0 <= i < |tags| && tags[i].name == "meta" && "name" in tags[i].attributes ::
                    '&' !in tags[i].attributes["name"])
              && exists i :: 0 <= i < |tags| && IsMarker(tags[i]) && tags[i].inHead
                   && "content" in tags[i].attributes && tags[i].attributes["content"] == buildId
                   && forall j | 0 <= j < |tags| && IsMarker(tags[j]) :: j == i
  {
    assert forall t :: IsMarker(t) <==> NamesMarker(t);
    if i :| SoleMarkerAt(tags, buildId, i) {
      assert IsMarker(tags[i]) && tags[i].attributes["content"] == buildId;
    }
    if i :| 0 <= i < |tags| && IsMarker(tags[i]) && tags[i].inHead && "content" in tags[i].attributes
            && tags[i].attributes["content"] == buildId && forall j | 0 <= j < |tags| && IsMarker(tags[j]) :: j == i {
      assert SoleMarkerAt(tags, buildId, i);
    }
  }

  ghost predicate IsMarker(t: StartTag) {
    t.name == "meta" && "name" in t.attributes && t.attributes["name"] == "handleplan-public-build-id"
  }
}
