/**
 The begin / persist / finalize protocol of a Kassalapp job
 (apps/worker/src/kassalapp-handlers.ts: `createExecutor`, `persistInBatches`,
 the page walk of `storeCatalogPriceRefresh`).

 Every awaited port call takes the next answer of an arbitrary script, so the
 contracts hold for every behaviour of the access policy, the gateway and the
 repository. The abort signal can only change while the job waits: an answer says
 whether it is set when the job resumes. The clock is taken to be valid.
 */
module KassalappRun {
  import opened WorkerContracts
  import opened Wrappers
  import opened Runner
  import Ledger = IngestionLedger

  const MAX_INGESTION_BATCH_SIZE := 25

  /** Record outcomes are opaque to the protocol. A job persists its phases in batches, or all stores in one call. */
  datatype Plan = Batched(phases: seq<seq<string>>) | OneCall(stores: seq<string>)

  datatype Prepared = Prepared(plan: Plan, failed: nat)

  datatype FinalStatus = Completed | Degraded | CancelledRun

  /** `ok`: the call did not throw. The other fields are read by the calls that return them. */
  datatype Answer = Answer(ok: bool, approved: bool, prepared: Option<Prepared>, counts: Counters, aborted: bool)

  datatype Event =
    | AccessChecked(passed: bool)
    | PrepareTried(ok: bool)
    | BeginTried(ok: bool)
    | PersistTried(batch: seq<string>, ok: bool)
    | FinalizeTried(status: FinalStatus, failed: nat, ok: bool)

  type Script = nat -> Answer

  function AbortedAt(script: Script, start: bool, calls: nat): bool {
    if calls == 0 then start else script(calls - 1).aborted
  }

  function Flatten(phases: seq<seq<string>>): seq<string> {
    if phases == [] then [] else Flatten(phases[..|phases| - 1]) + phases[|phases| - 1]
  }

  function Outcomes(plan: Plan): seq<string> {
    match plan case Batched(phases) => Flatten(phases) case OneCall(stores) => stores
  }

  /** What the repository accepted, in order. */
  function Stored(trace: seq<Event>): seq<string> {
    if trace == [] then []
    else
      var before, last := Stored(trace[..|trace| - 1]), trace[|trace| - 1];
      if last.PersistTried? && last.ok then before + last.batch else before
  }

  lemma {:induction false} StoredConcat(a: seq<Event>, b: seq<Event>)
    ensures Stored(a + b) == Stored(a) + Stored(b)
  {
    if b == [] {
      assert a + b == a;
    } else {
      var init := b[..|b| - 1];
      StoredConcat(a, init);
      assert (a + b)[..|a + b| - 1] == a + init && (a + b)[|a + b| - 1] == b[|b| - 1];
    }
  }

  lemma {:induction false} NothingStored(trace: seq<Event>)
    requires forall i | 0 <= i < |trace| :: !trace[i].PersistTried?
    ensures Stored(trace) == []
  {
    if trace != [] { NothingStored(trace[..|trace| - 1]); }
  }

  /** Each persistence call directly follows its own passed access check. */
  ghost predicate Guarded(trace: seq<Event>) {
    forall i | 0 <= i < |trace| && trace[i].PersistTried? :: i > 0 && trace[i - 1] == AccessChecked(true)
  }

  ghost predicate BatchesFit(trace: seq<Event>) {
    forall i | 0 <= i < |trace| && trace[i].PersistTried? :: 1 <= |trace[i].batch| <= MAX_INGESTION_BATCH_SIZE
  }

  /** A stretch of the trace between begin and finalize. */
  ghost predicate OnlyPersistence(trace: seq<Event>) {
    forall i | 0 <= i < |trace| :: trace[i].AccessChecked? || trace[i].PersistTried?
  }

  ghost predicate AllPersisted(trace: seq<Event>) {
    forall i | 0 <= i < |trace| && trace[i].PersistTried? :: trace[i].ok
  }

  /** No access check is left without its write. */
  ghost predicate Closed(trace: seq<Event>) {
    trace != [] ==> trace[|trace| - 1] != AccessChecked(true)
  }

  /** What a finished stretch of persistence has done so far. */
  ghost predicate Progressed(trace: seq<Event>, done: seq<string>) {
    && Guarded(trace) && OnlyPersistence(trace) && Closed(trace) && BatchesFit(trace) && AllPersisted(trace)
    && Stored(trace) == done
  }

  lemma ProgressesBy(trace: seq<Event>, done: seq<string>, step: seq<Event>, more: seq<string>)
    requires Progressed(trace, done) && Progressed(step, more)
    ensures Progressed(trace + step, done + more)
  {
    Joined(trace, step);
  }

  /** A stretch that stopped short has stored a part of what it was given. */
  lemma StopsWithin(trace: seq<Event>, done: seq<string>, step: seq<Event>, more: seq<string>)
    requires Progressed(trace, done) && Stored(step) <= more
    requires Guarded(step) && OnlyPersistence(step) && Closed(step) && BatchesFit(step)
    ensures var all := trace + step;
            Guarded(all) && OnlyPersistence(all) && Closed(all) && BatchesFit(all) && Stored(all) <= done + more
  {
    Joined(trace, step);
  }

  lemma Joined(a: seq<Event>, b: seq<Event>)
    ensures Guarded(a) && Guarded(b) ==> Guarded(a + b)
    ensures OnlyPersistence(a) && OnlyPersistence(b) ==> OnlyPersistence(a + b)
    ensures AllPersisted(a) && AllPersisted(b) ==> AllPersisted(a + b)
    ensures BatchesFit(a) && BatchesFit(b) ==> BatchesFit(a + b)
    ensures Closed(a) && Closed(b) ==> Closed(a + b)
    ensures Stored(a + b) == Stored(a) + Stored(b)
  {
    StoredConcat(a, b);
    if b == [] { assert a + b == a; }
  }

  // ----- The trace and the answers

  /** A check passes when its call answered "approved" and the job was not aborted meanwhile. */
  predicate Passes(answer: Answer) { !answer.aborted && answer.ok && answer.approved }

  /** The event tells what its call answered. */
  predicate Tells(e: Event, answer: Answer) {
    match e
    case AccessChecked(passed) => passed == Passes(answer)
    case PrepareTried(ok) => ok == answer.ok
    case BeginTried(ok) => ok == answer.ok
    case PersistTried(_, ok) => ok == answer.ok
    case FinalizeTried(_, _, ok) => ok == answer.ok
  }

  /** The i-th event of the trace is the call that got the (at + i)-th answer. */
  ghost predicate Answered(script: Script, at: nat, trace: seq<Event>) {
    forall i | 0 <= i < |trace| :: Tells(trace[i], script(at + i))
  }

  lemma AnsweredTogether(script: Script, at: nat, a: seq<Event>, b: seq<Event>)
    requires Answered(script, at, a) && Answered(script, at + |a|, b)
    ensures Answered(script, at, a + b)
  {
    forall i | 0 <= i < |a + b| ensures Tells((a + b)[i], script(at + i)) {
      if i >= |a| { assert Tells(b[i - |a|], script(at + |a| + (i - |a|))); }
    }
  }

  /** Persistence stops short only when the job is aborted, the access is not approved or a write fails. */
  ghost predicate HasReason(script: Script, start: bool, at: nat, trace: seq<Event>) {
    || AbortedAt(script, start, at + |trace|)
    || (trace != [] && var last := trace[|trace| - 1]; last == AccessChecked(false) || (last.PersistTried? && !last.ok))
  }

  lemma ReasonOfTheEnd(script: Script, start: bool, at: nat, a: seq<Event>, b: seq<Event>)
    requires HasReason(script, start, at + |a|, b)
    ensures HasReason(script, start, at, a + b)
  {
    if b != [] { assert (a + b)[|a + b| - 1] == b[|b| - 1]; }
  }

  lemma NothingYet(script: Script, at: nat)
    ensures Answered(script, at, []) && Progressed([], [])
  {
  }

  lemma AbortIsAReason(script: Script, start: bool, at: nat, trace: seq<Event>)
    requires AbortedAt(script, start, at + |trace|)
    ensures HasReason(script, start, at, trace)
  {
  }

  // ----- Access checks and persistence

  datatype Outcome = Done | WasCancelled | AccessChanged | Threw

  /** `at` port calls happened before; the check is the next one. */
  function Recheck(script: Script, at: nat): Outcome {
    var answer := script(at);
    if answer.aborted then WasCancelled
    else if !answer.ok || !answer.approved then AccessChanged
    else Done
  }

  /** One batch: cancellation test, access check, write. */
  method PersistBatch(script: Script, start: bool, at: nat, batch: seq<string>) returns (trace: seq<Event>, r: Outcome)
    ensures Guarded(trace) && OnlyPersistence(trace) && Closed(trace)
    ensures forall i | 0 <= i < |trace| && trace[i].PersistTried? :: trace[i].batch == batch
    ensures 1 <= |batch| <= MAX_INGESTION_BATCH_SIZE ==> BatchesFit(trace)
    ensures r.Done? ==> Stored(trace) == batch && AllPersisted(trace)
    ensures !r.Done? ==> Stored(trace) == [] && HasReason(script, start, at, trace)
    ensures r.WasCancelled? ==> AbortedAt(script, start, at + |trace|)
    ensures Answered(script, at, trace)
  {
    trace := [];
    if AbortedAt(script, start, at) {
      return trace, WasCancelled;
    }
    var check := Recheck(script, at);
    if !check.Done? {
      assert [AccessChecked(false)][..0] == [];
      return [AccessChecked(false)], check;
    }
    var ok := script(at + 1).ok;
    trace := [AccessChecked(true), PersistTried(batch, ok)];
    assert trace[..1] == [AccessChecked(true)] && [AccessChecked(true)][..0] == [];
    assert Stored(trace[..1]) == [];
    return trace, if ok then Done else Threw;
  }

  function Min(a: int, b: int): int { if a < b then a else b }

  method PersistInBatches(script: Script, start: bool, at: nat, outcomes: seq<string>)
    returns (trace: seq<Event>, r: Outcome)
    ensures Guarded(trace) && OnlyPersistence(trace) && Closed(trace) && BatchesFit(trace)
    ensures Stored(trace) <= outcomes
    ensures r.Done? ==> Stored(trace) == outcomes && AllPersisted(trace)
    ensures r.WasCancelled? ==> AbortedAt(script, start, at + |trace|)
    ensures !r.Done? ==> HasReason(script, start, at, trace)
    ensures Answered(script, at, trace)
  {
    hide Answered, HasReason, Guarded, OnlyPersistence, Closed, BatchesFit, AllPersisted, Stored, AbortedAt;
    NothingYet(script, at);
    trace := [];
    var index := 0;
    while index < |outcomes|
      invariant 0 <= index <= |outcomes|
      invariant Progressed(trace, outcomes[..index]) && Answered(script, at, trace)
    {
      var next := Min(index + MAX_INGESTION_BATCH_SIZE, |outcomes|);
      var batch := outcomes[index..next];
      var step, result := PersistBatch(script, start, at + |trace|, batch);
      assert outcomes[..index] + batch == outcomes[..next];
      AnsweredTogether(script, at, trace, step);
      if !result.Done? {
        StopsWithin(trace, outcomes[..index], step, batch);
        ReasonOfTheEnd(script, start, at, trace, step);
        return trace + step, result;
      }
      ProgressesBy(trace, outcomes[..index], step, batch);
      trace, index := trace + step, next;
    }
    assert outcomes[..|outcomes|] == outcomes;
    if AbortedAt(script, start, at + |trace|) {
      AbortIsAReason(script, start, at, trace);
      return trace, WasCancelled;
    }
    return trace, Done;
  }

  lemma {:induction false} FlattenPrefix(phases: seq<seq<string>>, k: nat)
    requires k <= |phases|
    ensures Flatten(phases[..k]) <= Flatten(phases)
    decreases |phases|
  {
    if k == |phases| {
      assert phases[..k] == phases;
    } else {
      FlattenPrefix(phases[..|phases| - 1], k);
      assert phases[..|phases| - 1][..k] == phases[..k];
    }
  }

  method PersistPhases(script: Script, start: bool, at: nat, phases: seq<seq<string>>)
    returns (trace: seq<Event>, r: Outcome)
    ensures Guarded(trace) && OnlyPersistence(trace) && Closed(trace) && BatchesFit(trace)
    ensures Stored(trace) <= Flatten(phases)
    ensures r.Done? ==> Stored(trace) == Flatten(phases) && AllPersisted(trace)
    ensures r.WasCancelled? ==> AbortedAt(script, start, at + |trace|)
    ensures !r.Done? ==> HasReason(script, start, at, trace)
    ensures Answered(script, at, trace)
  {
    hide Answered, HasReason, Guarded, OnlyPersistence, Closed, BatchesFit, AllPersisted, Stored, AbortedAt;
    NothingYet(script, at);
    trace, r := [], Done;
    for k := 0 to |phases|
      invariant Progressed(trace, Flatten(phases[..k])) && r.Done? && Answered(script, at, trace)
    {
      assert phases[..k + 1][..k] == phases[..k];
      FlattenPrefix(phases, k + 1);
      var step, result := PersistInBatches(script, start, at + |trace|, phases[k]);
      AnsweredTogether(script, at, trace, step);
      if !result.Done? {
        StopsWithin(trace, Flatten(phases[..k]), step, phases[k]);
        ReasonOfTheEnd(script, start, at, trace, step);
        return trace + step, result;
      }
      ProgressesBy(trace, Flatten(phases[..k]), step, phases[k]);
      trace := trace + step;
    }
    assert phases[..|phases|] == phases;
  }

  method Persist(script: Script, start: bool, at: nat, plan: Plan) returns (trace: seq<Event>, r: Outcome)
    ensures Guarded(trace) && OnlyPersistence(trace) && Closed(trace)
    ensures plan.Batched? ==> BatchesFit(trace)
    ensures Stored(trace) <= Outcomes(plan)
    ensures r.Done? ==> Stored(trace) == Outcomes(plan) && AllPersisted(trace)
    ensures r.WasCancelled? ==> AbortedAt(script, start, at + |trace|)
    ensures !r.Done? ==> HasReason(script, start, at, trace)
    ensures Answered(script, at, trace)
  {
    match plan
    case Batched(phases) =>
      trace, r := PersistPhases(script, start, at, phases);
    case OneCall(stores) =>
      trace, r := PersistBatch(script, start, at, stores);
      if r.Done? && AbortedAt(script, start, at + |trace|) {
        r := WasCancelled;
      }
  }

  // ----- After begin

  const ONE_FAILURE := CountersInput(None, None, None, None, None, Some(1))

  /** A receipt's counters come from the ledger, which keeps them accounted. */
  ghost predicate ReceiptsAreAccounted(script: Script) {
    forall i: nat :: WellFormed(script(i).counts) && Accounted(script(i).counts)
  }

  /** What the persistence calls and the closing access check left behind; `Done` means both went through. */
  ghost predicate Ready(script: Script, start: bool, at: nat, job: Prepared, events: seq<Event>, r: Outcome) {
    && Guarded(events) && OnlyPersistence(events)
    && (job.plan.Batched? ==> BatchesFit(events))
    && Stored(events) <= Outcomes(job.plan)
    && (r.WasCancelled? ==> AbortedAt(script, start, at + |events|))
    && (r.Done? <==> !Closed(events))
    && (!r.Done? ==> HasReason(script, start, at, events))
    && Answered(script, at, events)
    && (r.Done? ==> AllPersisted(events) && Stored(events) == Outcomes(job.plan))
  }

  /** The closing access check adds nothing to what was stored. */
  lemma ChecksOnce(events: seq<Event>, passed: bool)
    requires Guarded(events) && OnlyPersistence(events) && AllPersisted(events)
    ensures var after := events + [AccessChecked(passed)];
            && Guarded(after) && OnlyPersistence(after) && AllPersisted(after)
            && (Closed(after) <==> !passed)
            && Stored(after) == Stored(events)
            && (BatchesFit(events) ==> BatchesFit(after))
  {
    var check := [AccessChecked(passed)];
    Joined(events, check);
    NothingStored(check);
  }

  lemma CheckIsAnswered(script: Script, start: bool, at: nat, events: seq<Event>)
    requires Answered(script, at, events)
    ensures var r := Recheck(script, at + |events|);
            var after := events + [AccessChecked(r.Done?)];
            Answered(script, at, after) && (!r.Done? ==> HasReason(script, start, at, after))
  {
    AnsweredTogether(script, at, events, [AccessChecked(Recheck(script, at + |events|).Done?)]);
  }

  method PersistAndRecheck(script: Script, start: bool, at: nat, job: Prepared) returns (events: seq<Event>, r: Outcome)
    ensures Ready(script, start, at, job, events, r)
  {
    hide Guarded, OnlyPersistence, BatchesFit, AllPersisted, Stored, Answered, HasReason;
    events, r := Persist(script, start, at, job.plan);
    if r.Done? {
      r := Recheck(script, at + |events|);
      ChecksOnce(events, r.Done?);
      CheckIsAnswered(script, start, at, events);
      events := events + [AccessChecked(r.Done?)];
    }
  }

  /** What the finalize attempt asks for. */
  function FinalizeRequest(job: Prepared, r: Outcome, aborted: bool, ok: bool): Event {
    if r.Done? then FinalizeTried(if job.failed == 0 then Completed else Degraded, job.failed, ok)
    else if aborted then FinalizeTried(CancelledRun, job.failed, ok)
    else FinalizeTried(Degraded, job.failed + 1, ok)
  }

  /** How the handler settles once the finalize attempt answered. */
  function SettlementAfter(r: Outcome, aborted: bool, answer: Answer): Settlement {
    if !r.Done? && aborted then RejectedCancelled(if answer.ok then Ledger.Supplied(answer.counts) else NO_COUNTERS)
    else if answer.ok then Fulfilled(None, Ledger.Supplied(answer.counts))
    else if r.Done? && answer.aborted then RejectedCancelled(NO_COUNTERS)
    else RejectedOther
  }

  /** How a begun run is closed, read off its trace. */
  ghost predicate ClosesTheRun(job: Prepared, trace: seq<Event>) {
    && trace != [] && trace[|trace| - 1].FinalizeTried?
    && (forall i | 0 <= i < |trace| - 1 :: !trace[i].FinalizeTried?)
    && Stored(trace) <= Outcomes(job.plan)
    && var final := trace[|trace| - 1];
       && (final.status.Completed? <==>
             && job.failed == 0 && Stored(trace) == Outcomes(job.plan) && AllPersisted(trace)
             && |trace| >= 2 && trace[|trace| - 2] == AccessChecked(true))
       && (final.status.Completed? ==> final.failed == 0)
       && (final.status.Degraded? ==> final.failed > 0)
       && (final.failed == job.failed
           + if final.status.Degraded? && !(|trace| >= 2 && trace[|trace| - 2] == AccessChecked(true)) then 1 else 0)
  }

  /** The last event but one is a passed access check: the run was persisted to its end. */
  ghost predicate CheckedLast(trace: seq<Event>) { |trace| >= 2 && trace[|trace| - 2] == AccessChecked(true) }

  /**
   The status asked for and the settlement, read off the trace and the answers: cancelled exactly when the job
   was aborted before a passed closing check; then the counters of the very answer the finalize got, as a
   cancellation exactly if cancelled was asked for, and no counters when it failed.
   */
  ghost predicate SettledByItsEnd(script: Script, start: bool, at: nat, trace: seq<Event>, result: Settlement) {
    && trace != [] && trace[|trace| - 1].FinalizeTried?
    && var last := |trace| - 1;
       var final, answer := trace[last], script(at + last);
       && (final.status.CancelledRun? <==> AbortedAt(script, start, at + last) && !CheckedLast(trace))
       && (!CheckedLast(trace) ==> HasReason(script, start, at, trace[..last]))
       && (answer.ok ==>
             && SettlementCounters(result) == Ledger.Supplied(answer.counts)
             && (result.RejectedCancelled? <==> final.status.CancelledRun?)
             && (result.Fulfilled? <==> !final.status.CancelledRun?) && (result.Fulfilled? ==> result.status.None?))
       && (!answer.ok ==>
             && SettlementCounters(result) == NO_COUNTERS && !result.Fulfilled?
             && (result.RejectedCancelled? <==>
                   final.status.CancelledRun? || (CheckedLast(trace) && answer.aborted)))
  }

  lemma EndSettles(script: Script, start: bool, at: nat, job: Prepared, events: seq<Event>, r: Outcome)
    requires r.Done? <==> !Closed(events)
    requires !r.Done? ==> HasReason(script, start, at, events)
    ensures var aborted, answer := AbortedAt(script, start, at + |events|), script(at + |events|);
            var trace := events + [FinalizeRequest(job, r, aborted, answer.ok)];
            SettledByItsEnd(script, start, at, trace, SettlementAfter(r, aborted, answer))
  {
    var aborted, answer := AbortedAt(script, start, at + |events|), script(at + |events|);
    var trace := events + [FinalizeRequest(job, r, aborted, answer.ok)];
    assert trace[..|events|] == events;
    assert CheckedLast(trace) <==> r.Done?;
    CountersAfter(r, aborted, answer);
    hide HasReason, AbortedAt, CheckedLast, Closed, Ledger.Supplied;
  }

  lemma EndIsAnswered(script: Script, at: nat, job: Prepared, events: seq<Event>, r: Outcome, aborted: bool)
    requires Answered(script, at, events)
    ensures Answered(script, at, events + [FinalizeRequest(job, r, aborted, script(at + |events|).ok)])
  {
    AnsweredTogether(script, at, events, [FinalizeRequest(job, r, aborted, script(at + |events|).ok)]);
  }

  lemma RequestClosesTheRun(script: Script, start: bool, at: nat, job: Prepared, events: seq<Event>, r: Outcome,
                            aborted: bool, ok: bool)
    requires Ready(script, start, at, job, events, r)
    ensures var trace := events + [FinalizeRequest(job, r, aborted, ok)];
            && ClosesTheRun(job, trace) && Guarded(trace) && (job.plan.Batched? ==> BatchesFit(trace))
            && BeginTried(true) !in trace && BeginTried(false) !in trace
  {
    var final := [FinalizeRequest(job, r, aborted, ok)];
    assert Guarded(final) && BatchesFit(final);
    Joined(events, final);
    hide Guarded, BatchesFit, Stored, ClosesTheRun, Closed, AllPersisted;
    FinalizeClosesTheRun(script, start, at, job, events, r, aborted, ok);
  }

  lemma FinalizeClosesTheRun(script: Script, start: bool, at: nat, job: Prepared, events: seq<Event>, r: Outcome,
                             aborted: bool, ok: bool)
    requires Ready(script, start, at, job, events, r)
    ensures ClosesTheRun(job, events + [FinalizeRequest(job, r, aborted, ok)])
  {
    hide Guarded, BatchesFit, Stored, Answered, HasReason;
    var final := [FinalizeRequest(job, r, aborted, ok)];
    Joined(events, final);
    NothingStored(final);
    var trace := events + final;
    assert events != [] ==> trace[|trace| - 2] == events[|events| - 1];
    assert AllPersisted(trace) ==> AllPersisted(events) by {
      assert forall i | 0 <= i < |events| :: trace[i] == events[i];
    }
  }

  lemma SettlementIsUsable(r: Outcome, aborted: bool, answer: Answer)
    requires WellFormed(answer.counts) && Accounted(answer.counts)
    ensures Usable(SettlementCounters(SettlementAfter(r, aborted, answer)))
  {
    CountersAfter(r, aborted, answer);
    if answer.ok {
      Ledger.CountersAreUsable(answer.counts);
    }
  }

  lemma CountersAfter(r: Outcome, aborted: bool, answer: Answer)
    ensures SettlementCounters(SettlementAfter(r, aborted, answer))
            == if answer.ok then Ledger.Supplied(answer.counts) else NO_COUNTERS
  {
  }

  lemma EarlyIsUsable(early: Settlement)
    requires early == RejectedCancelled(NO_COUNTERS) || early == Fulfilled(None, ONE_FAILURE)
    ensures Usable(SettlementCounters(early))
  {
  }

  /** From a begun run to its end. */
  method CompleteRun(script: Script, start: bool, at: nat, job: Prepared)
    returns (trace: seq<Event>, result: Settlement)
    ensures Guarded(trace) && (job.plan.Batched? ==> BatchesFit(trace))
    ensures BeginTried(true) !in trace && BeginTried(false) !in trace
    ensures ClosesTheRun(job, trace)
    ensures SettledByItsEnd(script, start, at, trace, result) && Answered(script, at, trace)
    ensures ReceiptsAreAccounted(script) ==> Usable(SettlementCounters(result))
  {
    hide Guarded, BatchesFit, ClosesTheRun, Usable, SettledByItsEnd, Answered, HasReason;
    var events, r := PersistAndRecheck(script, start, at, job);
    var aborted := AbortedAt(script, start, at + |events|);
    var answer := script(at + |events|);
    RequestClosesTheRun(script, start, at, job, events, r, aborted, answer.ok);
    EndSettles(script, start, at, job, events, r);
    EndIsAnswered(script, at, job, events, r, aborted);
    trace := events + [FinalizeRequest(job, r, aborted, answer.ok)];
    if WellFormed(answer.counts) && Accounted(answer.counts) {
      SettlementIsUsable(r, aborted, answer);
    }
    result := SettlementAfter(r, aborted, answer);
  }

  // ----- The whole job

  /** A run that was begun is closed, once and last; without one nothing is written or finalized. */
  ghost predicate ClosedIffBegun(job: Option<Prepared>, trace: seq<Event>) {
    if BeginTried(true) in trace then
      job.Some? && exists k :: 0 <= k < |trace| && trace[k] == BeginTried(true) && NothingWritten(trace[..k])
                               && ClosesTheRun(job.value, trace[k + 1..])
    else NothingWritten(trace)
  }

  ghost predicate NothingWritten(trace: seq<Event>) {
    forall i | 0 <= i < |trace| :: !trace[i].FinalizeTried? && !trace[i].PersistTried?
  }

  function Failed(aborted: bool): Settlement {
    if aborted then RejectedCancelled(NO_COUNTERS) else Fulfilled(None, ONE_FAILURE)
  }

  /** A run begins when the job is not aborted, its context fits, access is approved and something was prepared. */
  predicate MayBegin(script: Script, start: bool, contextOk: bool) {
    && !start && contextOk && Passes(script(0))
    && script(1).ok && !script(1).aborted && script(1).prepared.Some?
    && Passes(script(2))
  }

  /** Up to the begin attempt; `early` is the settlement when there is no run to complete. */
  method Prepare(script: Script, start: bool, contextOk: bool)
    returns (front: seq<Event>, job: Option<Prepared>, early: Option<Settlement>)
    ensures NothingWritten(front) && |front| <= 4
    ensures forall i | 0 <= i < |front| && front[i].BeginTried? :: i == 3 && front[2] == AccessChecked(true)
    ensures early.None? <==> |front| == 4 && front[3] == BeginTried(true)
    ensures early.None? ==> job.Some? && job == script(1).prepared
    ensures early.Some? ==> early.value == Failed(AbortedAt(script, start, |front|))
    ensures Answered(script, 0, front)
    ensures (|front| == 4 <==> MayBegin(script, start, contextOk)) && (|front| == 4 ==> front[3].BeginTried?)
  {
    front, job := [], None;
    if start {
      return front, job, Some(RejectedCancelled(NO_COUNTERS));
    }
    if !contextOk {
      return front, job, Some(Fulfilled(None, ONE_FAILURE));
    }
    var check := Recheck(script, 0);
    front := [AccessChecked(check.Done?)];
    if !check.Done? {
      return front, job, Some(Failed(script(0).aborted));
    }
    var answer := script(1);
    front := front + [PrepareTried(answer.ok)];
    if !answer.ok || answer.aborted || answer.prepared.None? {
      return front, job, Some(Failed(answer.aborted));
    }
    job := answer.prepared;
    check := Recheck(script, 2);
    front := front + [AccessChecked(check.Done?)];
    if !check.Done? {
      return front, job, Some(Failed(script(2).aborted));
    }
    front := front + [BeginTried(script(3).ok)];
    early := if script(3).ok then None else Some(Failed(script(3).aborted));
  }

  /**
   The handler: `contextOk` is the check of job kind, source and fence token. For
   every script the trace is guarded and closed, and the runner accepts the counters
   if the repository's receipts are accounted, as the ledger keeps them.
   */
  method Execute(script: Script, start: bool, contextOk: bool)
    returns (trace: seq<Event>, job: Option<Prepared>, result: Settlement)
    ensures Guarded(trace)
    ensures ClosedIffBegun(job, trace)
    ensures job.Some? && job.value.plan.Batched? ==> BatchesFit(trace)
    ensures forall i | 0 <= i < |trace| && trace[i].BeginTried? :: i > 0 && trace[i - 1] == AccessChecked(true)
    ensures Answered(script, 0, trace)
    ensures BeginTried(true) in trace <==> MayBegin(script, start, contextOk) && script(3).ok
    ensures BeginTried(true) in trace ==> job == script(1).prepared && SettledByItsEnd(script, start, 0, trace, result)
    ensures BeginTried(true) !in trace ==>
              result == (if AbortedAt(script, start, |trace|) then RejectedCancelled(NO_COUNTERS)
                         else Fulfilled(None, ONE_FAILURE))
    ensures ReceiptsAreAccounted(script) ==> Usable(SettlementCounters(result))
  {
    hide Guarded, ClosedIffBegun, BatchesFit, ClosesTheRun, NothingWritten, Usable, ReceiptsAreAccounted;
    hide SettledByItsEnd, Answered;
    var front, early;
    front, job, early := Prepare(script, start, contextOk);
    if early.Some? {
      EarlyIsUsable(early.value);
      NotBegun(front, job);
      BegunIsFourth(script, front);
      return front, job, early.value;
    }
    var rest;
    rest, result := CompleteRun(script, start, 4, job.value);
    BegunAndClosed(front, rest, job.value);
    BegunIsFourth(script, front);
    AnsweredTogether(script, 0, front, rest);
    EndOfTheWhole(script, start, front, rest, result);
    trace := front + rest;
    assert trace[3] == front[3];
  }

  lemma BegunIsFourth(script: Script, front: seq<Event>)
    requires |front| <= 4 && Answered(script, 0, front)
    requires forall i | 0 <= i < |front| && front[i].BeginTried? :: i == 3
    ensures BeginTried(true) in front <==> |front| == 4 && front[3] == BeginTried(true)
    ensures |front| == 4 && front[3].BeginTried? ==> front[3] == BeginTried(script(3).ok)
  {
    if |front| == 4 { assert Tells(front[3], script(0 + 3)); }
  }

  lemma EndOfTheWhole(script: Script, start: bool, front: seq<Event>, rest: seq<Event>, result: Settlement)
    requires SettledByItsEnd(script, start, |front|, rest, result)
    requires front != [] && front[|front| - 1].BeginTried?
    ensures SettledByItsEnd(script, start, 0, front + rest, result)
  {
    var trace, last := front + rest, |rest| - 1;
    assert trace[..|front| + last] == front + rest[..last];
    assert CheckedLast(trace) == CheckedLast(rest) by {
      if |rest| == 1 { assert trace[|trace| - 2] == front[|front| - 1]; }
    }
    if !CheckedLast(rest) { ReasonOfTheEnd(script, start, 0, front, rest[..last]); }
    assert trace[|front| + last] == rest[last];
  }

  lemma NotBegun(front: seq<Event>, job: Option<Prepared>)
    requires NothingWritten(front) && |front| <= 4
    requires forall i | 0 <= i < |front| && front[i].BeginTried? :: i == 3 && front[2] == AccessChecked(true)
    requires |front| == 4 ==> front[3] != BeginTried(true)
    ensures Guarded(front) && BatchesFit(front) && ClosedIffBegun(job, front)
  {
  }

  lemma BegunAndClosed(front: seq<Event>, rest: seq<Event>, job: Prepared)
    requires |front| == 4 && front[3] == BeginTried(true) && Guarded(rest) && ClosesTheRun(job, rest)
    requires NothingWritten(front) && BeginTried(true) !in rest && BeginTried(false) !in rest
    requires forall i | 0 <= i < |front| && front[i].BeginTried? :: i == 3 && front[2] == AccessChecked(true)
    ensures var trace := front + rest;
            && Guarded(trace) && ClosedIffBegun(Some(job), trace)
            && (BatchesFit(rest) ==> BatchesFit(trace))
            && (forall i | 0 <= i < |trace| && trace[i].BeginTried? :: i > 0 && trace[i - 1] == AccessChecked(true))
  {
    var trace := front + rest;
    hide ClosesTheRun;
    assert trace[3] == BeginTried(true) && trace[3 + 1..] == rest && trace[..3] == front[..3];
    forall i | 0 <= i < |trace| && trace[i].PersistTried? ensures i > 0 && trace[i - 1] == AccessChecked(true) {
      assert trace[i] == rest[i - 4];
    }
    assert forall i | 4 <= i < |trace| :: trace[i] == rest[i - 4] && trace[i] in rest;
  }

  // ----- The page walk of a store catalog

  const STORE_CATALOG_PAGES_PER_CHAIN := 12

  function Digits(s: string): string {
    if s == "" then "" else (if '0' <= s[0] <= '9' then [s[0]] else "") + Digits(s[1..])
  }

  function Number(digits: string): int {
    if digits == "" then 0
    else Number(digits[..|digits| - 1]) * 10 + (digits[|digits| - 1] as int - '0' as int)
  }

  /** The start page comes from the last six digits of the job id. */
  function RotationPage(jobId: string): int {
    var digits := Digits(jobId);
    var last := if |digits| <= 6 then digits else digits[|digits| - 6..];
    Number(last) % STORE_CATALOG_PAGES_PER_CHAIN + 1
  }

  function PageAt(jobId: string, offset: nat): int {
    (RotationPage(jobId) - 1 + offset) % STORE_CATALOG_PAGES_PER_CHAIN + 1
  }

  /** Wherever the walk starts, it visits every page exactly once. */
  lemma WalkVisitsEveryPageOnce(jobId: string, page: int)
    requires 1 <= page <= STORE_CATALOG_PAGES_PER_CHAIN
    ensures exists offset :: 0 <= offset < STORE_CATALOG_PAGES_PER_CHAIN && PageAt(jobId, offset) == page
    ensures forall i, j | 0 <= i < j < STORE_CATALOG_PAGES_PER_CHAIN :: PageAt(jobId, i) != PageAt(jobId, j)
  {
    var base := RotationPage(jobId) - 1;
    assert 0 <= base < STORE_CATALOG_PAGES_PER_CHAIN;
    hide RotationPage;
    var offset := if page - 1 >= base then page - 1 - base else page - 1 - base + STORE_CATALOG_PAGES_PER_CHAIN;
    Turned(base, offset);
    assert PageAt(jobId, offset) == page;
    forall i, j | 0 <= i < j < STORE_CATALOG_PAGES_PER_CHAIN ensures PageAt(jobId, i) != PageAt(jobId, j) {
      Turned(base, i);
      Turned(base, j);
    }
  }

  lemma Turned(base: int, offset: int)
    requires 0 <= base < STORE_CATALOG_PAGES_PER_CHAIN && 0 <= offset < STORE_CATALOG_PAGES_PER_CHAIN
    ensures (base + offset) % STORE_CATALOG_PAGES_PER_CHAIN
            == if base + offset < STORE_CATALOG_PAGES_PER_CHAIN then base + offset
               else base + offset - STORE_CATALOG_PAGES_PER_CHAIN
  {
  }

  ghost predicate IsDigits(s: string) { forall i | 0 <= i < |s| :: '0' <= s[i] <= '9' }

  lemma {:induction false} DigitsOfBoth(a: string, b: string)
    ensures Digits(a + b) == Digits(a) + Digits(b)
  {
    if a == "" {
      assert a + b == b;
    } else {
      assert (a + b)[0] == a[0] && (a + b)[1..] == a[1..] + b;
      DigitsOfBoth(a[1..], b);
    }
  }

  lemma {:induction false} DigitsOfDigits(s: string)
    requires IsDigits(s)
    ensures Digits(s) == s
  {
    if s != "" {
      DigitsOfDigits(s[1..]);
      assert s == [s[0]] + s[1..];
    }
  }

  /** The last six digits of a job id decide the page its walk starts with. */
  lemma LastSixDigitsDecide(before: string, d: string)
    requires |d| == 6 && IsDigits(d)
    ensures RotationPage(before + d) == Number(d) % 12 + 1
  {
    DigitsOfBoth(before, d);
    DigitsOfDigits(d);
    hide Number, Digits, IsDigits;
    var digits := Digits(before + d);
    assert digits[|digits| - 6..] == d;
    if |digits| == 6 { assert digits == d; }
  }

  /** Six digits as the number they write. */
  lemma SixDigits(d: string)
    requires |d| == 6
    ensures Number(d) == (d[0] as int - '0' as int) * 100000 + (d[1] as int - '0' as int) * 10000
                         + (d[2] as int - '0' as int) * 1000 + (d[3] as int - '0' as int) * 100
                         + (d[4] as int - '0' as int) * 10 + (d[5] as int - '0' as int)
  {
    assert d[..5][..4] == d[..4] && d[..4][..3] == d[..3] && d[..3][..2] == d[..2] && d[..2][..1] == d[..1];
    assert d[..1][..0] == "";
    assert Number(d[..1]) == d[0] as int - '0' as int;
    assert Number(d[..2]) == Number(d[..1]) * 10 + (d[1] as int - '0' as int);
    assert Number(d[..3]) == Number(d[..2]) * 10 + (d[2] as int - '0' as int);
    assert Number(d[..4]) == Number(d[..3]) * 10 + (d[3] as int - '0' as int);
    assert Number(d[..5]) == Number(d[..4]) * 10 + (d[4] as int - '0' as int);
  }

  /** Fewer digits, or none, count as they are. */
  lemma FewDigitsCount(jobId: string)
    requires |Digits(jobId)| <= 6
    ensures RotationPage(jobId) == Number(Digits(jobId)) % 12 + 1
    ensures Digits(jobId) == "" ==> RotationPage(jobId) == 1
  {
  }
}
