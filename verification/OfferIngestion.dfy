/**
 The official-offer ingestion orchestrator and its handler
 (apps/worker/src/official-offer-operational.ts).

 Every awaited port call takes the next answer of an arbitrary script: the contracts
 hold for every behaviour of the authorizer, the discovery and fetch ports and the
 pipeline. An answer says whether the abort signal is set when the run resumes.
 */
module OfferIngestion {
  import opened WorkerContracts
  import opened Wrappers
  import opened Runner

  const MAX_DISCOVERY_PAGES := 5
  const MAX_EDITIONS_PER_PAGE := 10
  const MAX_EDITIONS_PER_RUN := 10
  const MAX_CAPTURE_BYTES := 50 * 1024 * 1024
  const MAX_CAPTURE_BYTES_PER_RUN := 100 * 1024 * 1024

  datatype Code = CancelledCode | SourceDisabled | OtherCode

  datatype PipelineStatus = PipelineCompleted | PipelineDegraded | PipelineFailed

  datatype Page = Page(editions: seq<string>, next: Option<string>)

  /** `ok`: the call returned; otherwise it threw `code`. A missing page or a size out of range fails its validation. */
  datatype Answer = Answer(ok: bool, code: Code, page: Option<Page>, bytes: int, status: PipelineStatus, aborted: bool)

  type Script = nat -> Answer

  datatype Event =
    | Authorize(edition: Option<string>)
    | Discover(cursor: Option<string>)
    | Fetch(edition_: string)
    | Capture(captured: string, bytes: nat, counted: Option<PipelineStatus>)

  /** The accumulators of one run, and its port calls. */
  datatype Progress = Progress(trace: seq<Event>, keys: set<string>, cursors: set<string>, cursor: Option<string>,
                               completed: nat, degraded: nat, failed: nat, discovered: nat, fetched: nat,
                               fetchedBytes: nat)

  // ----- What a trace shows

  function Fetches(trace: seq<Event>): seq<string> {
    if trace == [] then []
    else
      var before, last := Fetches(trace[..|trace| - 1]), trace[|trace| - 1];
      if last.Fetch? then before + [last.edition_] else before
  }

  function CapturedBytes(trace: seq<Event>): nat {
    if trace == [] then 0
    else
      var last := trace[|trace| - 1];
      CapturedBytes(trace[..|trace| - 1]) + if last.Capture? then last.bytes else 0
  }

  /** How many captures ended, uncancelled, with a status. */
  function Statuses(trace: seq<Event>, status: PipelineStatus): nat {
    if trace == [] then 0
    else
      var last := trace[|trace| - 1];
      Statuses(trace[..|trace| - 1], status) + if last.Capture? && last.counted == Some(status) then 1 else 0
  }

  function Pages(trace: seq<Event>): nat {
    if trace == [] then 0 else Pages(trace[..|trace| - 1]) + if trace[|trace| - 1].Discover? then 1 else 0
  }

  /** A source call directly follows its own authorization, a capture its own fetch. */
  ghost predicate MayFollow(before: seq<Event>, e: Event) {
    match e
    case Authorize(_) => true
    case Discover(_) => before != [] && before[|before| - 1] == Authorize(None)
    case Fetch(edition) => before != [] && before[|before| - 1] == Authorize(Some(edition))
    case Capture(edition, bytes, _) =>
      before != [] && before[|before| - 1] == Fetch(edition) && 1 <= bytes <= MAX_CAPTURE_BYTES
  }

  ghost predicate Authorized(trace: seq<Event>) {
    trace == [] || (Authorized(trace[..|trace| - 1]) && MayFollow(trace[..|trace| - 1], trace[|trace| - 1]))
  }

  ghost predicate Distinct(editions: seq<string>) {
    forall i, j | 0 <= i < j < |editions| :: editions[i] != editions[j]
  }

  lemma Appended(trace: seq<Event>, e: Event)
    ensures Fetches(trace + [e]) == Fetches(trace) + if e.Fetch? then [e.edition_] else []
    ensures CapturedBytes(trace + [e]) == CapturedBytes(trace) + if e.Capture? then e.bytes else 0
    ensures Pages(trace + [e]) == Pages(trace) + if e.Discover? then 1 else 0
    ensures Authorized(trace) && MayFollow(trace, e) ==> Authorized(trace + [e])
    ensures forall status ::
              Statuses(trace + [e], status)
              == Statuses(trace, status) + if e.Capture? && e.counted == Some(status) then 1 else 0
  {
    assert (trace + [e])[..|trace|] == trace;
  }

  // ----- The trace and the answers

  /** The call returned and the run was not aborted meanwhile. */
  predicate Continues(a: Answer) { a.ok && !a.aborted }

  /** The i-th event is the call that got the i-th answer: all up to there went on. */
  ghost predicate Continued(script: Script, n: nat) { forall i | 0 <= i < n :: Continues(script(i)) }

  /** The editions of all pages discovered, in order. */
  ghost function Editions(script: Script, trace: seq<Event>): seq<string> {
    if trace == [] then []
    else
      var last := |trace| - 1;
      var before := Editions(script, trace[..last]);
      if trace[last].Discover? && script(last).page.Some? then before + script(last).page.value.editions else before
  }

  /** The cursor that the last page discovered names. */
  ghost function NextCursor(script: Script, trace: seq<Event>): Option<string> {
    if trace == [] then None
    else
      var last := |trace| - 1;
      if trace[last].Discover? then (if script(last).page.Some? then script(last).page.value.next else None)
      else NextCursor(script, trace[..last])
  }

  /** The cursors that the pages name, in order. */
  ghost function Cursors(script: Script, trace: seq<Event>): seq<string> {
    if trace == [] then []
    else
      var last := |trace| - 1;
      var before := Cursors(script, trace[..last]);
      if trace[last].Discover? && script(last).page.Some? && script(last).page.value.next.Some?
      then before + [script(last).page.value.next.value] else before
  }

  /** A page is asked for with the cursor of the page before; a capture has the fetched bytes and its own status. */
  ghost predicate Tells(script: Script, before: seq<Event>, e: Event) {
    match e
    case Discover(cursor) => cursor == NextCursor(script, before)
    case Capture(_, bytes, counted) =>
      && before != [] && bytes == script(|before| - 1).bytes
      && counted == if Continues(script(|before|)) then Some(script(|before|).status) else None
    case _ => true
  }

  ghost predicate Told(script: Script, trace: seq<Event>) {
    forall i | 0 <= i < |trace| :: Tells(script, trace[..i], trace[i])
  }

  /** A run ends with the error of its last answer: what the call threw, a cancellation, or a failed validation. */
  ghost predicate EndedBy(script: Script, trace: seq<Event>, error: Option<Code>) {
    && (error.None? ==> Continued(script, |trace|))
    && (error.Some? ==>
          && trace != [] && Continued(script, |trace| - 1)
          && var a := script(|trace| - 1);
             if !a.ok then error.value == a.code
             else if a.aborted then
               error.value.CancelledCode? || (trace[|trace| - 1].Discover? && error.value.OtherCode?)
             else error.value.OtherCode?)
  }

  ghost predicate SamePages(script: Script, before: seq<Event>, after: seq<Event>) {
    && Editions(script, after) == Editions(script, before) && NextCursor(script, after) == NextCursor(script, before)
    && Cursors(script, after) == Cursors(script, before)
  }

  // ----- Failed validations

  /** The last answer is not a page within the limit. */
  ghost predicate IsBadPage(script: Script, trace: seq<Event>, pageLimit: nat)
    requires trace != []
  {
    var a := script(|trace| - 1);
    trace[|trace| - 1].Discover? && (a.page.None? || |a.page.value.editions| > pageLimit)
  }

  /** The last answer is a fetch out of range, or beyond what the run may capture. */
  ghost predicate IsBadFetch(script: Script, trace: seq<Event>)
    requires trace != []
  {
    var bytes := script(|trace| - 1).bytes;
    && trace[|trace| - 1].Fetch?
    && (bytes < 1 || bytes > MAX_CAPTURE_BYTES || CapturedBytes(trace) + bytes > MAX_CAPTURE_BYTES_PER_RUN)
  }

  /** The edition that is next was fetched before. */
  ghost predicate NextIsKnown(script: Script, trace: seq<Event>) {
    var fetched, all := Fetches(trace), Editions(script, trace);
    |fetched| < |all| && fetched <= all && all[|fetched|] in fetched
  }

  /** Everything is fetched and another page is named: by a cursor named before, or one page too many. */
  ghost predicate CannotGoOn(script: Script, trace: seq<Event>) {
    && Fetches(trace) == Editions(script, trace) && NextCursor(script, trace).Some?
    && (!Distinct(Cursors(script, trace)) || Pages(trace) == MAX_DISCOVERY_PAGES)
  }

  /** A run that fails by itself, not by what a call threw, has a reason. */
  ghost predicate Explained(script: Script, trace: seq<Event>, error: Option<Code>, pageLimit: nat) {
    trace != [] && error == Some(OtherCode) && script(|trace| - 1).ok ==>
      || IsBadPage(script, trace, pageLimit) || IsBadFetch(script, trace)
      || |Editions(script, trace)| > MAX_EDITIONS_PER_RUN || NextIsKnown(script, trace) || CannotGoOn(script, trace)
  }

  lemma NoError(script: Script, trace: seq<Event>, pageLimit: nat)
    ensures Explained(script, trace, None, pageLimit)
  {
  }

  lemma BadFetch(script: Script, trace: seq<Event>, pageLimit: nat)
    requires trace != [] && IsBadFetch(script, trace)
    ensures Explained(script, trace, Some(OtherCode), pageLimit)
  {
  }

  lemma BadPage(script: Script, trace: seq<Event>, pageLimit: nat)
    requires trace != [] && IsBadPage(script, trace, pageLimit)
    ensures Explained(script, trace, Some(OtherCode), pageLimit)
  {
  }

  lemma KnownEdition(script: Script, trace: seq<Event>, edition: string, pageLimit: nat)
    requires edition in Fetches(trace) && Fetches(trace) + [edition] <= Editions(script, trace)
    ensures Explained(script, trace, Some(OtherCode), pageLimit)
  {
    var fetched, all := Fetches(trace), Editions(script, trace);
    assert all[|fetched|] == (fetched + [edition])[|fetched|];
    assert NextIsKnown(script, trace);
  }

  lemma TooManyEditions(script: Script, trace: seq<Event>, pageLimit: nat)
    requires |Editions(script, trace)| > MAX_EDITIONS_PER_RUN
    ensures Explained(script, trace, Some(OtherCode), pageLimit)
  {
  }

  lemma StuckAtACursor(script: Script, trace: seq<Event>, pageLimit: nat)
    requires CannotGoOn(script, trace)
    ensures Explained(script, trace, Some(OtherCode), pageLimit)
  {
  }

  /** What an answer itself brings needs no reason. */
  lemma ErrorsOfAnswers(script: Script, trace: seq<Event>, error: Option<Code>, pageLimit: nat)
    requires trace != [] && error == ErrorOf(script(|trace| - 1))
    ensures Explained(script, trace, error, pageLimit)
  {
  }

  lemma ToldMore(script: Script, trace: seq<Event>, e: Event)
    requires Told(script, trace) && Tells(script, trace, e)
    ensures Told(script, trace + [e])
    ensures Editions(script, trace + [e])
            == Editions(script, trace)
               + if e.Discover? && script(|trace|).page.Some? then script(|trace|).page.value.editions else []
    ensures NextCursor(script, trace + [e])
            == if !e.Discover? then NextCursor(script, trace)
               else if script(|trace|).page.Some? then script(|trace|).page.value.next else None
    ensures Cursors(script, trace + [e])
            == Cursors(script, trace)
               + if e.Discover? && script(|trace|).page.Some? && script(|trace|).page.value.next.Some?
                 then [script(|trace|).page.value.next.value] else []
  {
    var all := trace + [e];
    assert all[..|trace|] == trace;
    forall i | 0 <= i < |all| ensures Tells(script, all[..i], all[i]) {
      if i < |trace| { assert all[..i] == trace[..i] && all[i] == trace[i]; }
    }
  }

  // ----- Invariant of a run

  ghost predicate CountsInv(p: Progress) {
    && p.completed == Statuses(p.trace, PipelineCompleted)
    && p.degraded == Statuses(p.trace, PipelineDegraded)
    && p.failed == Statuses(p.trace, PipelineFailed)
    && p.completed + p.degraded + p.failed == p.fetched
    && p.fetched <= |Fetches(p.trace)| <= p.discovered <= MAX_EDITIONS_PER_RUN
  }

  ghost predicate TraceInv(p: Progress) {
    && Authorized(p.trace)
    && Distinct(Fetches(p.trace))
    && (forall e | e in Fetches(p.trace) :: e in p.keys)
  }

  ghost predicate BytesInv(p: Progress) {
    CapturedBytes(p.trace) == p.fetchedBytes <= MAX_CAPTURE_BYTES_PER_RUN
  }

  ghost predicate Inv(p: Progress) {
    CountsInv(p) && TraceInv(p) && BytesInv(p)
  }

  /** Between two editions: every edition taken up was fetched. */
  ghost predicate IsLevel(p: Progress) {
    p.discovered == p.fetched == |Fetches(p.trace)| && p.keys == (set e | e in Fetches(p.trace))
  }

  /** The error, if any, with which an awaited call continues. */
  function ErrorOf(a: Answer): Option<Code> {
    if !a.ok then Some(a.code) else if a.aborted then Some(CancelledCode) else None
  }

  /** One more answer: it goes on, or it is the run's error. */
  lemma StepEnds(script: Script, trace: seq<Event>, e: Event)
    requires Continued(script, |trace|)
    ensures EndedBy(script, trace + [e], ErrorOf(script(|trace|)))
    ensures ErrorOf(script(|trace|)).None? <==> Continued(script, |trace| + 1)
    ensures ErrorOf(script(|trace|)).None? <==> Continues(script(|trace|))
  {
  }

  lemma ValidationEnds(script: Script, trace: seq<Event>)
    requires trace != [] && Continued(script, |trace| - 1) && script(|trace| - 1).ok
    requires script(|trace| - 1).aborted ==> trace[|trace| - 1].Discover?
    ensures EndedBy(script, trace, Some(OtherCode))
  {
  }

  lemma WentOn(script: Script, trace: seq<Event>)
    requires trace != [] && Continued(script, |trace|)
    ensures EndedBy(script, trace, None) && EndedBy(script, trace, Some(OtherCode))
  {
    assert Continues(script(|trace| - 1));
  }

  lemma EndsWell(script: Script, trace: seq<Event>)
    requires EndedBy(script, trace, None)
    ensures Continued(script, |trace|)
  {
  }

  /** The accumulators before the first port call. */
  method NothingYet(trace: seq<Event>) returns (p: Progress)
    requires trace == []
    ensures Inv(p) && IsLevel(p) && p.trace == [] && p.cursor.None? && p.cursors == {}
  {
    p := Progress(trace, {}, {}, None, 0, 0, 0, 0, 0, 0);
  }

  lemma AuthorizeKeeps(p: Progress, edition: Option<string>)
    requires Inv(p)
    ensures Inv(p.(trace := p.trace + [Authorize(edition)]))
    ensures Pages(p.trace + [Authorize(edition)]) == Pages(p.trace)
  {
    Appended(p.trace, Authorize(edition));
  }

  lemma DiscoverKeeps(p: Progress)
    requires Inv(p) && p.trace != [] && p.trace[|p.trace| - 1] == Authorize(None)
    ensures Inv(p.(trace := p.trace + [Discover(p.cursor)]))
    ensures Pages(p.trace + [Discover(p.cursor)]) == Pages(p.trace) + 1
    ensures Fetches(p.trace + [Discover(p.cursor)]) == Fetches(p.trace)
  {
    Appended(p.trace, Discover(p.cursor));
  }

  lemma FetchKeeps(p: Progress, edition: string)
    requires Inv(p) && p.trace != [] && p.trace[|p.trace| - 1] == Authorize(Some(edition))
    requires edition in p.keys && edition !in Fetches(p.trace) && |Fetches(p.trace)| < p.discovered
    ensures Inv(p.(trace := p.trace + [Fetch(edition)]))
    ensures Pages(p.trace + [Fetch(edition)]) == Pages(p.trace)
  {
    Appended(p.trace, Fetch(edition));
  }

  lemma CaptureKeeps(p: Progress, edition: string, bytes: nat, counted: Option<PipelineStatus>)
    requires Inv(p) && p.trace != [] && p.trace[|p.trace| - 1] == Fetch(edition) && 1 <= bytes <= MAX_CAPTURE_BYTES
    requires p.fetchedBytes + bytes <= MAX_CAPTURE_BYTES_PER_RUN && p.fetched < |Fetches(p.trace)|
    ensures Inv(Captured(p, edition, bytes, counted))
    ensures Pages(Captured(p, edition, bytes, counted).trace) == Pages(p.trace)
    ensures Fetches(Captured(p, edition, bytes, counted).trace) == Fetches(p.trace)
  {
    Appended(p.trace, Capture(edition, bytes, counted));
  }

  function Captured(p: Progress, edition: string, bytes: nat, counted: Option<PipelineStatus>): Progress {
    var q := p.(trace := p.trace + [Capture(edition, bytes, counted)], fetchedBytes := p.fetchedBytes + bytes);
    if counted.Some? then CountStatus(q, counted.value) else q
  }

  function CountStatus(p: Progress, status: PipelineStatus): Progress {
    match status
    case PipelineCompleted => p.(completed := p.completed + 1, fetched := p.fetched + 1)
    case PipelineDegraded => p.(degraded := p.degraded + 1, fetched := p.fetched + 1)
    case PipelineFailed => p.(failed := p.failed + 1, fetched := p.fetched + 1)
  }

  /** From the fetched bytes of an edition to its counted status. */
  method CaptureEdition(script: Script, p: Progress, edition: string, bytes: int, ghost pageLimit: nat)
    returns (p': Progress, error: Option<Code>)
    requires Inv(p) && p.trace != [] && p.trace[|p.trace| - 1] == Fetch(edition) && p.fetched < |Fetches(p.trace)|
    requires Told(script, p.trace) && Continued(script, |p.trace|) && bytes == script(|p.trace| - 1).bytes
    ensures Told(script, p'.trace) && EndedBy(script, p'.trace, error) && Explained(script, p'.trace, error, pageLimit)
    ensures Fetches(p'.trace) == Fetches(p.trace) && SamePages(script, p.trace, p'.trace) && p'.trace != []
    ensures Inv(p') && Pages(p'.trace) == Pages(p.trace) && p'.cursors == p.cursors
    ensures p.fetched <= p'.fetched && p'.discovered == p.discovered && p'.keys == p.keys
    ensures error.None? ==> |Fetches(p'.trace)| == |Fetches(p.trace)| && p'.fetched == p.fetched + 1
    ensures forall e :: e in Fetches(p'.trace) <==> e in Fetches(p.trace)
    ensures p'.cursor == p.cursor
  {
    hide Told, Editions, NextCursor, Inv, Continued, EndedBy, Fetches, Pages, Explained, Cursors;
    hide CapturedBytes, Captured;
    BytesAgree(p);
    p' := p;
    WentOn(script, p.trace);
    if bytes < 1 || bytes > MAX_CAPTURE_BYTES {
      BadFetch(script, p.trace, pageLimit);
      return p', Some(OtherCode);
    }
    if p.fetchedBytes + bytes > MAX_CAPTURE_BYTES_PER_RUN {
      BadFetch(script, p.trace, pageLimit);
      return p', Some(OtherCode);
    }
    var answer := script(|p.trace|);
    error := ErrorOf(answer);
    StepEnds(script, p.trace, Capture(edition, bytes, if error.None? then Some(answer.status) else None));
    var counted := if error.None? then Some(answer.status) else None;
    CaptureKeeps(p, edition, bytes, counted);
    ToldMore(script, p.trace, Capture(edition, bytes, counted));
    CapturedIs(p, edition, bytes, counted);
    p' := Captured(p, edition, bytes, counted);
    ErrorsOfAnswers(script, p'.trace, error, pageLimit);
  }

  lemma CapturedIs(p: Progress, edition: string, bytes: nat, counted: Option<PipelineStatus>)
    ensures var q := Captured(p, edition, bytes, counted);
            && q.trace == p.trace + [Capture(edition, bytes, counted)]
            && q.fetched == p.fetched + (if counted.Some? then 1 else 0) && q.discovered == p.discovered
            && q.keys == p.keys && q.cursors == p.cursors && q.cursor == p.cursor
  {
  }

  lemma BytesAgree(p: Progress)
    requires Inv(p)
    ensures CapturedBytes(p.trace) == p.fetchedBytes
  {
  }

  lemma NewEdition(p: Progress, edition: string)
    requires Inv(p) && p.discovered < MAX_EDITIONS_PER_RUN && edition !in p.keys
    ensures var q := p.(keys := p.keys + {edition}, discovered := p.discovered + 1);
            Inv(q) && edition !in Fetches(q.trace) && |Fetches(q.trace)| < q.discovered
  {
  }

  /** One edition: duplicate check, authorization, fetch, capture. */
  method IngestEdition(script: Script, p: Progress, edition: string, ghost pageLimit: nat)
    returns (p': Progress, error: Option<Code>)
    requires Inv(p) && p.discovered < MAX_EDITIONS_PER_RUN && IsLevel(p)
    requires Fetches(p.trace) + [edition] <= Editions(script, p.trace)
    requires p.trace != [] && Told(script, p.trace) && Continued(script, |p.trace|)
    ensures Told(script, p'.trace) && EndedBy(script, p'.trace, error) && SamePages(script, p.trace, p'.trace)
    ensures error.None? ==> Fetches(p'.trace) == Fetches(p.trace) + [edition]
    ensures Inv(p') && Pages(p'.trace) == Pages(p.trace) && p'.cursors == p.cursors && p'.cursor == p.cursor
    ensures p.fetched <= p'.fetched
    ensures error.None? ==> IsLevel(p') && p'.discovered == p.discovered + 1
    ensures p'.trace != [] && Explained(script, p'.trace, error, pageLimit)
  {
    WentOn(script, p.trace);
    if edition !in p.keys { NewEdition(p, edition); }
    hide Told, Editions, NextCursor, Inv, Continued, EndedBy, Fetches, Pages, Explained, Cursors;
    p' := p;
    if edition in p.keys {
      KnownEdition(script, p.trace, edition, pageLimit);
      return p', Some(OtherCode);
    }
    p' := p'.(keys := p'.keys + {edition}, discovered := p'.discovered + 1);
    AuthorizeKeeps(p', Some(edition));
    Appended(p'.trace, Authorize(Some(edition)));
    ToldMore(script, p'.trace, Authorize(Some(edition)));
    StepEnds(script, p'.trace, Authorize(Some(edition)));
    error := ErrorOf(script(|p'.trace|));
    p' := p'.(trace := p'.trace + [Authorize(Some(edition))]);
    ErrorsOfAnswers(script, p'.trace, error, pageLimit);
    if error.Some? {
      return;
    }
    p', error := FetchEdition(script, p', edition, pageLimit);
  }

  /** An authorized edition: fetch and capture. */
  method FetchEdition(script: Script, p: Progress, edition: string, ghost pageLimit: nat)
    returns (p': Progress, error: Option<Code>)
    requires Inv(p) && p.trace != [] && p.trace[|p.trace| - 1] == Authorize(Some(edition))
    requires edition in p.keys && edition !in Fetches(p.trace) && p.fetched == |Fetches(p.trace)| < p.discovered
    requires Told(script, p.trace) && Continued(script, |p.trace|)
    ensures Told(script, p'.trace) && EndedBy(script, p'.trace, error) && SamePages(script, p.trace, p'.trace)
    ensures error.None? ==> Fetches(p'.trace) == Fetches(p.trace) + [edition] && p'.fetched == p.fetched + 1
    ensures Inv(p') && Pages(p'.trace) == Pages(p.trace) && p.fetched <= p'.fetched && p'.trace != []
    ensures p'.cursors == p.cursors && p'.cursor == p.cursor && p'.discovered == p.discovered && p'.keys == p.keys
    ensures Explained(script, p'.trace, error, pageLimit)
  {
    hide Told, Editions, NextCursor, Inv, Continued, EndedBy, Fetches, Pages, Explained, Cursors;
    var answer := script(|p.trace|);
    StepEnds(script, p.trace, Fetch(edition));
    FetchKeeps(p, edition);
    Appended(p.trace, Fetch(edition));
    ToldMore(script, p.trace, Fetch(edition));
    p' := p.(trace := p.trace + [Fetch(edition)]);
    error := ErrorOf(answer);
    ErrorsOfAnswers(script, p'.trace, error, pageLimit);
    if error.Some? {
      return;
    }
    p', error := CaptureEdition(script, p', edition, answer.bytes, pageLimit);
  }

  /** The editions of one page. */
  method IngestPage(script: Script, p: Progress, editions: seq<string>, ghost pageLimit: nat)
    returns (p': Progress, error: Option<Code>)
    requires Inv(p) && p.discovered + |editions| <= MAX_EDITIONS_PER_RUN && IsLevel(p)
    requires Editions(script, p.trace) == Fetches(p.trace) + editions
    requires p.trace != [] && Told(script, p.trace) && Continued(script, |p.trace|)
    ensures Told(script, p'.trace) && EndedBy(script, p'.trace, error) && SamePages(script, p.trace, p'.trace)
    ensures error.None? ==> Fetches(p'.trace) == Fetches(p.trace) + editions
    ensures Inv(p') && Pages(p'.trace) == Pages(p.trace) && p'.cursors == p.cursors && p'.cursor == p.cursor
    ensures p.fetched <= p'.fetched
    ensures error.None? ==> IsLevel(p')
    ensures p'.trace != [] && Explained(script, p'.trace, error, pageLimit)
  {
    hide Told, Editions, NextCursor, Inv, Continued, EndedBy, Fetches, Pages, Explained, Cursors;
    WentOn(script, p.trace);
    p', error := p, None;
    for i := 0 to |editions|
      invariant Inv(p') && Pages(p'.trace) == Pages(p.trace) && p'.cursors == p.cursors && p'.cursor == p.cursor
      invariant IsLevel(p') && p'.discovered == p.discovered + i && error.None?
      invariant p'.trace != [] && Told(script, p'.trace) && Continued(script, |p'.trace|)
      invariant SamePages(script, p.trace, p'.trace) && Fetches(p'.trace) == Fetches(p.trace) + editions[..i]
    {
      assert editions[..i + 1] == editions[..i] + [editions[i]];
      assert Fetches(p.trace) + editions == Fetches(p'.trace) + [editions[i]] + editions[i + 1..];
      p', error := IngestEdition(script, p', editions[i], pageLimit);
      if error.Some? {
        return;
      }
      EndsWell(script, p'.trace);
    }
    assert editions[..|editions|] == editions;
    WentOn(script, p'.trace);
    NoError(script, p'.trace, pageLimit);
  }

  function Named(next: Option<string>): seq<string> { if next.Some? then [next.value] else [] }

  /** Authorization and discovery of one page. */
  method DiscoverPage(script: Script, p: Progress, pageLimit: nat)
    returns (p': Progress, page: Page, error: Option<Code>)
    requires Inv(p) && Told(script, p.trace) && Continued(script, |p.trace|) && p.cursor == NextCursor(script, p.trace)
    ensures Told(script, p'.trace) && EndedBy(script, p'.trace, error) && Explained(script, p'.trace, error, pageLimit)
    ensures error.None? ==>
              && Pages(p'.trace) == Pages(p.trace) + 1
              && Cursors(script, p'.trace) == Cursors(script, p.trace) + Named(page.next)
              && p'.trace != [] && Editions(script, p'.trace) == Editions(script, p.trace) + page.editions
              && NextCursor(script, p'.trace) == page.next
    ensures Inv(p') && Pages(p'.trace) <= Pages(p.trace) + 1
    ensures Fetches(p'.trace) == Fetches(p.trace) && p'.(trace := p.trace) == p
    ensures error.None? ==> |page.editions| <= pageLimit
    ensures p'.trace != []
  {
    hide Told, Editions, NextCursor, Inv, Continued, EndedBy, Fetches, Pages, Explained, Cursors;
    p', page := p, Page([], None);
    AuthorizeKeeps(p', None);
    Appended(p'.trace, Authorize(None));
    ToldMore(script, p'.trace, Authorize(None));
    StepEnds(script, p'.trace, Authorize(None));
    error := ErrorOf(script(|p'.trace|));
    p' := p'.(trace := p'.trace + [Authorize(None)]);
    ErrorsOfAnswers(script, p'.trace, error, pageLimit);
    if error.Some? {
      return;
    }
    var answer := script(|p'.trace|);
    DiscoverKeeps(p');
    ToldMore(script, p'.trace, Discover(p'.cursor));
    StepEnds(script, p'.trace, Discover(p'.cursor));
    p' := p'.(trace := p'.trace + [Discover(p'.cursor)]);
    ErrorsOfAnswers(script, p'.trace, ErrorOf(answer), pageLimit);
    if !answer.ok {
      return p', page, Some(answer.code);
    }
    ValidationEnds(script, p'.trace);
    if answer.page.None? || |answer.page.value.editions| > pageLimit {
      BadPage(script, p'.trace, pageLimit);
      return p', page, Some(OtherCode);
    }
    page := answer.page.value;
    error := if answer.aborted then Some(CancelledCode) else None;
  }

  /** `run`: `error` is what it would throw before it wraps progress; nothing if it returns its receipt. */
  method RunOrchestrator(script: Script, start: bool, pageLimit: nat) returns (p: Progress, error: Option<Code>)
    requires 1 <= pageLimit <= MAX_EDITIONS_PER_PAGE
    ensures Inv(p) && Pages(p.trace) <= MAX_DISCOVERY_PAGES
    ensures error.None? ==> p.fetched == |Fetches(p.trace)|
    ensures Told(script, p.trace)
    ensures start ==> p.trace == [] && error == Some(CancelledCode)
    ensures !start ==> p.trace != [] && EndedBy(script, p.trace, error) && Explained(script, p.trace, error, pageLimit)
    ensures error.None? ==> Fetches(p.trace) == Editions(script, p.trace) && NextCursor(script, p.trace).None?
  {
    p := NothingYet([]);
    error := None;
    if start {
      return p, Some(CancelledCode);
    }
    for pageIndex := 0 to MAX_DISCOVERY_PAGES
      invariant Inv(p) && Pages(p.trace) == pageIndex && IsLevel(p) && (pageIndex > 0 ==> p.cursor.Some?)
      invariant p.cursors == set c | c in Cursors(script, p.trace)
      invariant Told(script, p.trace) && Continued(script, |p.trace|) && (pageIndex > 0 ==> p.trace != [])
      invariant p.cursor == NextCursor(script, p.trace) && Fetches(p.trace) == Editions(script, p.trace)
    {
      var last;
      p, last, error := RunPage(script, p, pageLimit);
      if error.Some? || last {
        return;
      }
      EndsWell(script, p.trace);
    }
    WentOn(script, p.trace);
    StuckAtACursor(script, p.trace, pageLimit);
    error := Some(OtherCode);
  }

  /** One round of the page loop; `last` when the page has no successor. */
  method RunPage(script: Script, p: Progress, pageLimit: nat) returns (p': Progress, last: bool, error: Option<Code>)
    requires Inv(p) && IsLevel(p) && p.cursors == (set c | c in Cursors(script, p.trace))
    requires Told(script, p.trace) && Continued(script, |p.trace|)
    requires p.cursor == NextCursor(script, p.trace) && Fetches(p.trace) == Editions(script, p.trace)
    ensures Told(script, p'.trace) && EndedBy(script, p'.trace, error) && p'.trace != []
    ensures error.None? ==> Fetches(p'.trace) == Editions(script, p'.trace)
    ensures error.None? ==> (last <==> NextCursor(script, p'.trace).None?)
    ensures error.None? && !last ==> p'.cursor == NextCursor(script, p'.trace)
    ensures Inv(p') && Pages(p'.trace) <= Pages(p.trace) + 1
    ensures error.None? ==> IsLevel(p') && Pages(p'.trace) == Pages(p.trace) + 1
    ensures error.None? && !last ==> p'.cursors == set c | c in Cursors(script, p'.trace)
    ensures Explained(script, p'.trace, error, pageLimit)
  {
    hide Told, Editions, NextCursor, Inv, Continued, EndedBy, Fetches, Pages, Explained, Cursors;
    last := false;
    var page;
    p', page, error := DiscoverPage(script, p, pageLimit);
    if error.Some? {
      return;
    }
    EndsWell(script, p'.trace);
    WentOn(script, p'.trace);
    if p'.discovered + |page.editions| > MAX_EDITIONS_PER_RUN {
      TooManyEditions(script, p'.trace, pageLimit);
      return p', false, Some(OtherCode);
    }
    p', error := IngestPage(script, p', page.editions, pageLimit);
    if error.Some? {
      return;
    }
    EndsWell(script, p'.trace);
    WentOn(script, p'.trace);
    if page.next.None? {
      NoError(script, p'.trace, pageLimit);
      return p', true, None;
    }
    if page.next.value in p'.cursors {
      NamedBefore(script, p'.trace, Cursors(script, p.trace), page.next.value, pageLimit);
      return p', false, Some(OtherCode);
    }
    NoError(script, p'.trace, pageLimit);
    MovesOn(p', page.next.value);
    p' := p'.(cursors := p'.cursors + {page.next.value}, cursor := page.next);
  }

  lemma NamedBefore(script: Script, trace: seq<Event>, before: seq<string>, cursor: string, pageLimit: nat)
    requires Fetches(trace) == Editions(script, trace) && NextCursor(script, trace) == Some(cursor)
    requires cursor in before && Cursors(script, trace) == before + [cursor]
    ensures Explained(script, trace, Some(OtherCode), pageLimit)
  {
    var i :| 0 <= i < |before| && before[i] == cursor;
    var all := Cursors(script, trace);
    assert all[i] == before[i] == all[|before|];
    StuckAtACursor(script, trace, pageLimit);
  }

  lemma MovesOn(p: Progress, next: string)
    requires Inv(p)
    ensures Inv(p.(cursors := p.cursors + {next}, cursor := Some(next)))
  {
  }

  // ----- The handler

  function CountersFor(p: Progress, failed: nat): CountersInput
    requires p.completed + p.degraded <= p.fetched
  {
    CountersInput(Some(p.fetched), Some(p.completed), Some(p.degraded), Some(p.fetched - p.completed - p.degraded),
                  Some(p.fetched), Some(failed))
  }

  function Settle(p: Progress, error: Option<Code>, aborted: bool): Settlement
    requires p.completed + p.degraded <= p.fetched
  {
    if error.None? then Fulfilled(None, CountersFor(p, p.failed))
    else if p.fetched == 0 then RejectedOther
    else if aborted || error.value.CancelledCode? then RejectedCancelled(CountersFor(p, p.failed))
    else Fulfilled(Some(HandlerPartial), CountersFor(p, p.failed + 1))
  }

  lemma CountersAreAccounted(p: Progress, failed: nat)
    requires CountsInv(p) && failed <= p.failed + 1
    ensures Usable(CountersFor(p, failed))
    ensures MergeCounters(CountersFor(p, failed)).value
            == Counters(p.fetched, p.completed, p.degraded, p.fetched - p.completed - p.degraded, p.fetched, failed)
  {
  }

  /** For every behaviour of the ports the runner keeps the counters the handler reports. */
  method IngestionHandler(script: Script, start: bool, pageLimit: nat)
    returns (p: Progress, error: Option<Code>, aborted: bool, result: Settlement)
    requires 1 <= pageLimit <= MAX_EDITIONS_PER_PAGE
    ensures Inv(p) && Pages(p.trace) <= MAX_DISCOVERY_PAGES && |Fetches(p.trace)| <= MAX_EDITIONS_PER_RUN
    ensures Told(script, p.trace)
    ensures if start then p.trace == [] && error == Some(CancelledCode) && aborted
            else
              && p.trace != [] && EndedBy(script, p.trace, error) && Explained(script, p.trace, error, pageLimit)
              && aborted == script(|p.trace| - 1).aborted
    ensures error.None? ==> Fetches(p.trace) == Editions(script, p.trace) && NextCursor(script, p.trace).None?
    ensures result == Settle(p, error, aborted)
    ensures Usable(SettlementCounters(result))
  {
    hide Told, Editions, NextCursor, EndedBy, Fetches, Pages, Usable, Explained;
    p, error := RunOrchestrator(script, start, pageLimit);
    aborted := if p.trace == [] then start else script(|p.trace| - 1).aborted;
    result := Settle(p, error, aborted);
    SettledUsable(p, error, aborted);
  }

  lemma SettledUsable(p: Progress, error: Option<Code>, aborted: bool)
    requires CountsInv(p)
    ensures Usable(SettlementCounters(Settle(p, error, aborted)))
  {
    hide Settle, Usable, CountersFor;
    SettledCounters(p, error, aborted);
    if error.None? || p.fetched > 0 {
      CountersAreAccounted(p, p.failed);
      CountersAreAccounted(p, p.failed + 1);
    } else {
      NoCountersAreUsable();
    }
  }

  lemma SettledCounters(p: Progress, error: Option<Code>, aborted: bool)
    requires CountsInv(p)
    ensures var c := SettlementCounters(Settle(p, error, aborted));
            if error.Some? && p.fetched == 0 then c == NO_COUNTERS
            else if error.None? || aborted || error.value.CancelledCode? then c == CountersFor(p, p.failed)
            else c == CountersFor(p, p.failed + 1)
  {
  }

  function Recorded(p: Progress, error: Option<Code>, aborted: bool, startedAt: int, completedAt: int): RunResult
    requires p.completed + p.degraded <= p.fetched
  {
    Complete(NotForced, Settle(p, error, aborted), false, aborted, startedAt, completedAt)
  }

  /** A failure after progress is recorded as partial, with every count it had. */
  lemma FailureAfterProgressIsPartial(p: Progress, error: Code, startedAt: int, completedAt: int)
    requires CountsInv(p) && p.fetched > 0 && !error.CancelledCode?
    ensures var r := Recorded(p, Some(error), false, startedAt, completedAt);
            r.status == Partial
            && r.counters == Counters(p.fetched, p.completed, p.degraded, p.fetched - p.completed - p.degraded,
                                      p.fetched, p.failed + 1)
  {
    CountersAreAccounted(p, p.failed + 1);
  }

  /** A cancellation after progress keeps its counts. */
  lemma CancellationKeepsItsCounts(p: Progress, error: Code, aborted: bool, startedAt: int, completedAt: int)
    requires CountsInv(p) && p.fetched > 0 && (aborted || error.CancelledCode?)
    ensures var r := Recorded(p, Some(error), aborted, startedAt, completedAt);
            r.status == Cancelled
            && r.counters == Counters(p.fetched, p.completed, p.degraded, p.fetched - p.completed - p.degraded,
                                      p.fetched, p.failed)
  {
    CountersAreAccounted(p, p.failed);
  }

  /** A finished run succeeded exactly when no edition's pipeline failed; failed editions count as unknown. */
  lemma FinishedRunStatus(p: Progress, startedAt: int, completedAt: int)
    requires CountsInv(p)
    ensures var r := Recorded(p, None, false, startedAt, completedAt);
            && r.status == (if p.failed == 0 then Succeeded else Partial)
            && r.counters.unknown == p.failed == r.counters.failed
            && r.counters.accepted == p.completed && r.counters.quarantined == p.degraded
  {
    CountersAreAccounted(p, p.failed);
  }
}
