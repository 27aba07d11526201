/** Counters and result statuses shared by the worker, and the schema every run result must meet. */
module WorkerContracts {
  import opened Wrappers

  const MAX_SAFE_INTEGER: int := 9007199254740991

  datatype RunStatus = Succeeded | Partial | Cancelled | TimedOut | Failed

  /** A handler may leave any counter out; a supplied one is an arbitrary number. */
  datatype CountersInput = CountersInput(
    fetched: Option<int>, accepted: Option<int>, quarantined: Option<int>,
    unknown: Option<int>, persisted: Option<int>, failed: Option<int>)

  datatype Counters = Counters(
    fetched: int, accepted: int, quarantined: int, unknown: int, persisted: int, failed: int)

  const ZERO: Counters := Counters(0, 0, 0, 0, 0, 0)

  predicate InCounterRange(n: int) {
    0 <= n <= MAX_SAFE_INTEGER
  }

  predicate WellFormed(c: Counters) {
    && InCounterRange(c.fetched) && InCounterRange(c.accepted) && InCounterRange(c.quarantined)
    && InCounterRange(c.unknown) && InCounterRange(c.persisted) && InCounterRange(c.failed)
  }

  /** Every fetched record was classified once, and every fetched record was persisted. */
  predicate Accounted(c: Counters) {
    c.fetched == c.accepted + c.quarantined + c.unknown && c.persisted == c.fetched
  }

  /** The refinement of the run-result schema. Timestamps are milliseconds. */
  predicate MeetsResultSchema(status: RunStatus, c: Counters, startedAt: int, completedAt: int) {
    && WellFormed(c)
    && startedAt <= completedAt
    && Accounted(c)
    && (status.Succeeded? ==> c.failed == 0)
    && (status.Partial? ==> c.failed != 0 && c.fetched != 0)
    && (status.Failed? ==> c.failed != 0 && c.fetched == 0)
  }
}
