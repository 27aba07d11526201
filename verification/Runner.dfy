/**
 How one worker run turns a handler settlement into a recorded result
 (apps/worker/src/runner.ts). The promise race itself is part of `Runtime`;
 here are the classification after the race and the counter accounting.
 */
module Runner {
  import opened WorkerContracts
  import opened Wrappers

  datatype HandlerStatus = HandlerSucceeded | HandlerPartial

  /** How the handler promise settled. A cancellation error may carry counters. */
  datatype Settlement =
    | Fulfilled(status: Option<HandlerStatus>, counters: CountersInput)
    | RejectedCancelled(cancelCounters: CountersInput)
    | RejectedOther

  /** Which promise won the race, when it was not the handler's own settlement. */
  datatype Forced = NotForced | ForcedCancelled | ForcedTimedOut

  datatype RunResult = RunResult(status: RunStatus, counters: Counters, startedAt: int, completedAt: int)

  const NO_COUNTERS := CountersInput(None, None, None, None, None, None)

  function OrZero(n: Option<int>): int {
    if n.Some? then n.value else 0
  }

  /** Missing counters default to zero. */
  function Defaulted(input: CountersInput): Counters {
    Counters(OrZero(input.fetched), OrZero(input.accepted), OrZero(input.quarantined),
             OrZero(input.unknown), OrZero(input.persisted), OrZero(input.failed))
  }

  /** A counter outside the schema rejects the whole set. */
  function MergeCounters(input: CountersInput): (r: Option<Counters>)
    ensures r.Some? ==> WellFormed(r.value)
  {
    if WellFormed(Defaulted(input)) then Some(Defaulted(input)) else None
  }

  function CompletionStatus(c: Counters): RunStatus {
    if c.failed == 0 then Succeeded else if c.fetched > 0 then Partial else Failed
  }

  predicate Usable(input: CountersInput) {
    MergeCounters(input).Some? && Accounted(Defaulted(input))
  }

  /** `finish` once the counters have been found accounted. */
  function FinishAccounted(status: RunStatus, c: Counters): (RunStatus, Counters) {
    var finalStatus := if status.Succeeded? || status.Partial? then CompletionStatus(c) else status;
    (finalStatus, if finalStatus.Failed? && c.failed == 0 then c.(failed := 1) else c)
  }

  /** `finish`, without the final schema check: status and counters that would be submitted to it. */
  function Finish(status: RunStatus, input: CountersInput): (RunStatus, Counters) {
    if Usable(input) then FinishAccounted(status, Defaulted(input))
    else FinishAccounted(Failed, ZERO.(failed := 1))
  }

  function SettlementCounters(s: Settlement): CountersInput {
    match s
    case Fulfilled(_, counters) => counters
    case RejectedCancelled(counters) => counters
    case RejectedOther => NO_COUNTERS
  }

  /** The classification after the race, in the order the source tests it. */
  function Classify(forced: Forced, settlement: Settlement, timedOut: bool, callerCancelled: bool)
    : (RunStatus, CountersInput)
  {
    var counters := SettlementCounters(settlement);
    if forced.ForcedCancelled? then (Cancelled, counters)
    else if forced.ForcedTimedOut? then (TimedOut, counters)
    else match settlement
      case Fulfilled(status, c) =>
        (if status == Some(HandlerPartial) then Partial else Succeeded, c)
      case RejectedCancelled(c) => (Cancelled, c)
      case RejectedOther =>
        if timedOut then (TimedOut, counters)
        else if callerCancelled then (Cancelled, counters)
        else (Failed, counters)
  }

  function Complete(forced: Forced, settlement: Settlement, timedOut: bool, callerCancelled: bool,
                    startedAt: int, completedAt: int): RunResult
  {
    var (status, counters) := Classify(forced, settlement, timedOut, callerCancelled);
    var (finalStatus, finalCounters) := Finish(status, counters);
    RunResult(finalStatus, finalCounters, startedAt, completedAt)
  }

  /** How `run` ends: at one of the three tests before any handler is started, or with the handler's settlement. */
  datatype Ending =
    | InvalidFence
    | CancelledBefore
    | NoHandler
    | Handled(forced: Forced, settlement: Settlement, timedOut: bool, callerCancelled: bool)

  function ResultOf(ending: Ending, startedAt: int, completedAt: int): RunResult {
    match ending
    case Handled(forced, settlement, timedOut, callerCancelled) =>
      Complete(forced, settlement, timedOut, callerCancelled, startedAt, completedAt)
    case _ =>
      var (status, counters) := Finish(if ending.CancelledBefore? then Cancelled else Failed, NO_COUNTERS);
      RunResult(status, counters, startedAt, completedAt)
  }

  /**
   On a clock that does not run backwards, `run` never throws at its own result
   schema, whatever the handler does, whichever promise won the race and if no
   handler was started at all.
   */
  lemma EveryResultMeetsTheSchema(ending: Ending, startedAt: int, completedAt: int)
    requires startedAt <= completedAt
    ensures var r := ResultOf(ending, startedAt, completedAt);
            MeetsResultSchema(r.status, r.counters, r.startedAt, r.completedAt)
  {
    match ending
    case Handled(forced, settlement, timedOut, callerCancelled) =>
      var (status, counters) := Classify(forced, settlement, timedOut, callerCancelled);
      FinishMeetsTheSchema(status, counters, startedAt, completedAt);
    case _ =>
      FinishMeetsTheSchema(if ending.CancelledBefore? then Cancelled else Failed, NO_COUNTERS, startedAt, completedAt);
  }

  /** Without a handler `run` reports nothing but why: a cancellation, or one failure. */
  lemma EarlyExits(ending: Ending, startedAt: int, completedAt: int)
    requires !ending.Handled?
    ensures ResultOf(ending, startedAt, completedAt)
            == if ending.CancelledBefore? then RunResult(Cancelled, Counters(0, 0, 0, 0, 0, 0), startedAt, completedAt)
               else RunResult(Failed, Counters(0, 0, 0, 0, 0, 1), startedAt, completedAt)
  {
    FinishWithoutCounters(if ending.CancelledBefore? then Cancelled else Failed);
    hide Finish;
  }

  /** `finish` is safe unless it is told "failed" together with counters that show progress. */
  lemma FinishMeetsTheSchema(status: RunStatus, input: CountersInput, startedAt: int, completedAt: int)
    requires startedAt <= completedAt
    ensures MeetsResultSchema(Finish(status, input).0, Finish(status, input).1, startedAt, completedAt)
            <==> !(status.Failed? && Usable(input) && Defaulted(input).fetched != 0)
  {
    if Usable(input) {
      AccountedMeetsTheSchema(status, Defaulted(input), startedAt, completedAt);
    } else {
      AccountedMeetsTheSchema(Failed, ZERO.(failed := 1), startedAt, completedAt);
    }
  }

  lemma AccountedMeetsTheSchema(status: RunStatus, c: Counters, startedAt: int, completedAt: int)
    requires startedAt <= completedAt
    requires WellFormed(c) && Accounted(c)
    ensures MeetsResultSchema(FinishAccounted(status, c).0, FinishAccounted(status, c).1, startedAt, completedAt)
            <==> !(status.Failed? && c.fetched != 0)
  {
  }

  lemma AccountedSurvives(status: RunStatus, c: Counters)
    requires status.Failed? ==> c.failed > 0
    requires c.failed >= 0
    ensures status.Succeeded? || status.Partial? ==> FinishAccounted(status, c).0 == CompletionStatus(c)
    ensures status.Cancelled? || status.TimedOut? ==> FinishAccounted(status, c).0 == status
    ensures FinishAccounted(status, c).1 == c
  {
  }

  /**
   Exactly the accounted counter sets survive. Anything else is replaced by a
   bare failure, so partial or inflated progress is never reported.
   */
  lemma CountersSurviveIffAccounted(status: RunStatus, input: CountersInput)
    requires status.Failed? ==> OrZero(input.failed) > 0
    ensures Usable(input) ==> Finish(status, input).1 == Defaulted(input)
    ensures !Usable(input) ==> Finish(status, input).0 == Failed && Finish(status, input).1 == ZERO.(failed := 1)
    ensures Usable(input) && (status.Succeeded? || status.Partial?) ==>
              Finish(status, input).0 == CompletionStatus(Defaulted(input))
    ensures Usable(input) && (status.Cancelled? || status.TimedOut?) ==> Finish(status, input).0 == status
  {
    if Usable(input) {
      AccountedSurvives(status, Defaulted(input));
    } else {
      BareFailure();
    }
  }

  lemma BareFailure()
    ensures FinishAccounted(Failed, ZERO.(failed := 1)).0 == Failed
    ensures FinishAccounted(Failed, ZERO.(failed := 1)).1 == ZERO.(failed := 1)
  {
  }

  /** A supplied counter, or zero, is `n`. */
  ghost predicate Supplies(counter: Option<int>, n: int) {
    match counter case Some(m) => m == n case None => n == 0
  }

  /**
   Counters are usable exactly when they are numbers from 0 to 2^53 - 1 in which every fetched record is accepted,
   quarantined or unknown, and persisted.
   */
  lemma UsableIff(input: CountersInput)
    ensures Usable(input) <==>
              exists fetched, accepted, quarantined, unknown, persisted, failed ::
                && Supplies(input.fetched, fetched) && Supplies(input.accepted, accepted)
                && Supplies(input.quarantined, quarantined) && Supplies(input.unknown, unknown)
                && Supplies(input.persisted, persisted) && Supplies(input.failed, failed)
                && 0 <= accepted && 0 <= quarantined && 0 <= unknown && 0 <= failed <= 9007199254740991
                && fetched == accepted + quarantined + unknown <= 9007199254740991 && persisted == fetched
  {
    var c := Defaulted(input);
    assert Supplies(input.fetched, c.fetched) && Supplies(input.accepted, c.accepted);
    assert Supplies(input.quarantined, c.quarantined) && Supplies(input.unknown, c.unknown);
    assert Supplies(input.persisted, c.persisted) && Supplies(input.failed, c.failed);
  }

  /** A handler whose counters are not usable is recorded as one failure, however its run ended. */
  lemma UnusableCountersFail(forced: Forced, settlement: Settlement, timedOut: bool, callerCancelled: bool,
                             startedAt: int, completedAt: int)
    requires !Usable(SettlementCounters(settlement))
    ensures Complete(forced, settlement, timedOut, callerCancelled, startedAt, completedAt)
            == RunResult(Failed, Counters(0, 0, 0, 0, 0, 1), startedAt, completedAt)
  {
    var (status, counters) := Classify(forced, settlement, timedOut, callerCancelled);
    ClassifiedOutcome(forced, settlement, timedOut, callerCancelled, startedAt, completedAt, status, counters);
    BareFailure();
  }

  /** A forced outcome keeps whatever accounted progress the joined handler reported. */
  lemma ForcedOutcomeKeepsProgress(forced: Forced, settlement: Settlement, timedOut: bool,
                                   callerCancelled: bool, startedAt: int, completedAt: int)
    requires !forced.NotForced?
    requires Usable(SettlementCounters(settlement))
    ensures var r := Complete(forced, settlement, timedOut, callerCancelled, startedAt, completedAt);
            && r.status == (if forced.ForcedCancelled? then Cancelled else TimedOut)
            && r.counters == Defaulted(SettlementCounters(settlement))
  {
    var status := if forced.ForcedCancelled? then Cancelled else TimedOut;
    var counters := SettlementCounters(settlement);
    assert Classify(forced, settlement, timedOut, callerCancelled) == (status, counters);
    CountersSurviveIffAccounted(status, counters);
  }

  /** The outcome of a settlement, once it has been classified. */
  lemma ClassifiedOutcome(forced: Forced, settlement: Settlement, timedOut: bool, callerCancelled: bool,
                          startedAt: int, completedAt: int, status: RunStatus, counters: CountersInput)
    requires Classify(forced, settlement, timedOut, callerCancelled) == (status, counters)
    ensures Complete(forced, settlement, timedOut, callerCancelled, startedAt, completedAt)
            == RunResult(Finish(status, counters).0, Finish(status, counters).1, startedAt, completedAt)
  {
    hide Classify, Finish;
  }

  lemma ClassifiesSettlement(settlement: Settlement, timedOut: bool, callerCancelled: bool)
    ensures settlement.RejectedCancelled? ==>
              Classify(NotForced, settlement, timedOut, callerCancelled) == (Cancelled, SettlementCounters(settlement))
    ensures settlement.Fulfilled? ==>
              Classify(NotForced, settlement, timedOut, callerCancelled)
              == (if settlement.status == Some(HandlerPartial) then Partial else Succeeded,
                  SettlementCounters(settlement))
  {
  }

  /** A reported status is recomputed from accounted counters; a cancellation keeps its counters. */
  lemma UnforcedOutcome(settlement: Settlement, timedOut: bool, callerCancelled: bool, startedAt: int, completedAt: int)
    requires !settlement.RejectedOther? && Usable(SettlementCounters(settlement))
    ensures var r := Complete(NotForced, settlement, timedOut, callerCancelled, startedAt, completedAt);
            var counters := Defaulted(SettlementCounters(settlement));
            && r.status == (if settlement.RejectedCancelled? then Cancelled else CompletionStatus(counters))
            && r.counters == counters
  {
    hide *;
    var status := if settlement.RejectedCancelled? then Cancelled
                  else if settlement.status == Some(HandlerPartial) then Partial else Succeeded;
    var counters := SettlementCounters(settlement);
    ClassifiesSettlement(settlement, timedOut, callerCancelled);
    ClassifiedOutcome(NotForced, settlement, timedOut, callerCancelled, startedAt, completedAt, status, counters);
    CountersSurviveIffAccounted(status, counters);
  }

  lemma NoCountersAreUsable()
    ensures Usable(NO_COUNTERS) && Defaulted(NO_COUNTERS) == ZERO
  {
    assert Defaulted(NO_COUNTERS) == ZERO;
  }

  lemma FinishWithoutCounters(status: RunStatus)
    requires status.TimedOut? || status.Cancelled? || status.Failed?
    ensures Finish(status, NO_COUNTERS).0 == status
    ensures Finish(status, NO_COUNTERS).1 == if status.Failed? then ZERO.(failed := 1) else ZERO
  {
    NoCountersAreUsable();
  }

  /** Any other rejection reports nothing but why it ended. */
  lemma RejectedOutcome(timedOut: bool, callerCancelled: bool, startedAt: int, completedAt: int)
    ensures var r := Complete(NotForced, RejectedOther, timedOut, callerCancelled, startedAt, completedAt);
            && r.status == (if timedOut then TimedOut else if callerCancelled then Cancelled else Failed)
            && r.counters == (if timedOut || callerCancelled then ZERO else ZERO.(failed := 1))
  {
    var status := if timedOut then TimedOut else if callerCancelled then Cancelled else Failed;
    assert Classify(NotForced, RejectedOther, timedOut, callerCancelled) == (status, NO_COUNTERS);
    FinishWithoutCounters(status);
  }
}
