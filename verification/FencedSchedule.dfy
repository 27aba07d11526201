/**
 Any number of worker processes sharing one database: lease rows with a generation
 (packages/db/src/worker-lease.ts), the job lookup of a cycle
 (apps/worker/src/runtime.ts, `executeCycle`) and results recorded under a fence
 that is checked again, with the lease row locked, before the commit
 (packages/db/src/worker-state.ts, `record`).

 A lease's generation is the database time of its claim. The database clock moves on
 between two claims. Every worker has a clock of its own, which may read anything.
 */
module FencedSchedule {
  import opened Wrappers
  import opened Schedule

  datatype Lease = Lease(owner: nat, generation: int, expiresAt: int)

  /**
   A due job, looked up under the fence `generation` when the worker's clock read
   `readAt` and the source had the results `view`.
   */
  datatype Job = Job(schedule: Definition, slot: int, generation: int, readAt: int, view: seq<Record>)

  /** `fences` are the lease tokens the worker believes it has; they may be stale. */
  datatype Worker = Worker(fences: map<string, int>, job: Option<Job>)

  datatype Record = Record(schedule: Definition, slot: int, readAt: int)

  datatype State = State(clock: int, leases: map<string, Lease>, workers: seq<Worker>, results: seq<Record>)

  datatype Event =
    | Tick(elapsed: nat)
    | Claim(worker: nat, source: string, elapsed: nat, ttl: nat)
    | Renew(worker: nat, source: string, ttl: nat)
    | Release(worker: nat, source: string)
    | Forget(worker: nat)
    | LookUp(worker: nat, schedule: Definition, now: int)
    | Commit(worker: nat, duplicateId: bool)

  // ----- Steps

  predicate IsCurrent(s: State, source: string, worker: nat, generation: int) {
    source in s.leases && s.leases[source].owner == worker && s.leases[source].generation == generation
  }

  predicate FenceHolds(s: State, source: string, worker: nat, generation: int) {
    IsCurrent(s, source, worker, generation) && s.leases[source].expiresAt > s.clock
  }

  /** The greatest slot recorded for a source and kind. */
  function LastScheduled(results: seq<Record>, source: string, kind: JobKind): (r: Option<int>)
    ensures forall x | x in results && x.schedule.source == source && x.schedule.kind == kind ::
              r.Some? && x.slot <= r.value
  {
    if results == [] then None
    else
      var before, last := LastScheduled(results[..|results| - 1], source, kind), results[|results| - 1];
      if last.schedule.source == source && last.schedule.kind == kind && (before.None? || before.value < last.slot)
      then Some(last.slot) else before
  }

  function OfSource(results: seq<Record>, source: string): seq<Record> {
    if results == [] then []
    else
      var before, last := OfSource(results[..|results| - 1], source), results[|results| - 1];
      if last.schedule.source == source then before + [last] else before
  }

  function WithWorker(s: State, w: nat, worker: Worker): State
    requires w < |s.workers|
  {
    s.(workers := s.workers[w := worker])
  }

  /** An insert, or a take-over of an expired row. */
  function NextClaim(s: State, w: nat, source: string, elapsed: nat, ttl: nat): State
    requires w < |s.workers|
  {
    var now := s.clock + 1 + elapsed;
    if source in s.leases && s.leases[source].expiresAt > now then s.(clock := now)
    else
      s.(clock := now, leases := s.leases[source := Lease(w, now, now + ttl)],
         workers := s.workers[w := s.workers[w].(fences := s.workers[w].fences[source := now])])
  }

  function NextRenew(s: State, w: nat, source: string, ttl: nat): State
    requires w < |s.workers|
  {
    if source in s.workers[w].fences && FenceHolds(s, source, w, s.workers[w].fences[source]) then
      s.(leases := s.leases[source := s.leases[source].(expiresAt := s.clock + ttl)])
    else s
  }

  function NextRelease(s: State, w: nat, source: string): State
    requires w < |s.workers|
  {
    if source !in s.workers[w].fences then s
    else
      var released := WithWorker(s, w, s.workers[w].(fences := s.workers[w].fences - {source}));
      if IsCurrent(s, source, w, s.workers[w].fences[source]) then released.(leases := s.leases - {source})
        else released
  }

  /** Reads the last recorded slot and prepares the newest missed one, under whatever token the worker has. */
  function NextLookUp(s: State, w: nat, d: Definition, now: int): State
    requires w < |s.workers|
  {
    if d.source !in s.workers[w].fences || !ValidInterval(d) then s
    else
      var slot := NewestMissedSlot(d, LastScheduled(s.results, d.source, d.kind), now);
      var fence := s.workers[w].fences[d.source];
      var job := if slot.Some? then Some(Job(d, slot.value, fence, now, OfSource(s.results, d.source))) else None;
      WithWorker(s, w, s.workers[w].(job := job))
  }

  /** The fence decides with the lease row locked. `duplicateId`: the job id is taken, and nothing is inserted. */
  function NextCommit(s: State, w: nat, duplicateId: bool): State
    requires w < |s.workers|
  {
    var job := s.workers[w].job;
    if job.None? then s
    else
      var done := WithWorker(s, w, s.workers[w].(job := None));
      if duplicateId || !FenceHolds(s, job.value.schedule.source, w, job.value.generation) then done
      else done.(results := s.results + [Record(job.value.schedule, job.value.slot, job.value.readAt)])
  }

  function Next(s: State, e: Event): State {
    match e
    case Tick(elapsed) => s.(clock := s.clock + elapsed)
    case Claim(w, source, elapsed, ttl) => if w < |s.workers| then NextClaim(s, w, source, elapsed, ttl) else s
    case Renew(w, source, ttl) => if w < |s.workers| then NextRenew(s, w, source, ttl) else s
    case Release(w, source) => if w < |s.workers| then NextRelease(s, w, source) else s
    case Forget(w) => if w < |s.workers| then WithWorker(s, w, Worker(map[], None)) else s
    case LookUp(w, d, now) => if w < |s.workers| then NextLookUp(s, w, d, now) else s
    case Commit(w, duplicateId) => if w < |s.workers| then NextCommit(s, w, duplicateId) else s
  }

  function Run(s: State, events: seq<Event>): State {
    if events == [] then s else Next(Run(s, events[..|events| - 1]), events[|events| - 1])
  }

  function Start(workers: nat, clock: int): State {
    State(clock, map[], seq(workers, _ => Worker(map[], None)), [])
  }

  // ----- Invariant

  ghost predicate SlotIsRight(d: Definition, slot: int, readAt: int) {
    ValidInterval(d) && IsSlot(d, slot) && slot <= readAt < slot + d.intervalMs
  }

  /** While its token is current, a prepared job is newer than everything recorded for its source and kind. */
  ghost predicate JobInv(s: State, w: nat)
    requires w < |s.workers| && s.workers[w].job.Some?
  {
    var job := s.workers[w].job.value;
    && job.generation <= s.clock
    && SlotIsRight(job.schedule, job.slot, job.readAt)
    && (IsCurrent(s, job.schedule.source, w, job.generation) ==>
          && OfSource(s.results, job.schedule.source) == job.view
          && var last := LastScheduled(s.results, job.schedule.source, job.schedule.kind);
             last.None? || last.value < job.slot)
  }

  ghost predicate TokensInv(s: State) {
    && (forall source | source in s.leases :: s.leases[source].generation <= s.clock)
    && (forall w, source | 0 <= w < |s.workers| && source in s.workers[w].fences ::
          s.workers[w].fences[source] <= s.clock)
  }

  ghost predicate JobsInv(s: State) {
    forall w | 0 <= w < |s.workers| && s.workers[w].job.Some? :: JobInv(s, w)
  }

  /** Slots of one source and kind increase strictly in the order of recording. */
  ghost predicate Increasing(results: seq<Record>) {
    forall i, j | 0 <= i < j < |results| && results[i].schedule.source == results[j].schedule.source
                  && results[i].schedule.kind == results[j].schedule.kind :: results[i].slot < results[j].slot
  }

  ghost predicate Inv(s: State) {
    && TokensInv(s)
    && JobsInv(s)
    && Increasing(s.results)
    && (forall i | 0 <= i < |s.results| :: SlotIsRight(s.results[i].schedule, s.results[i].slot, s.results[i].readAt))
  }

  lemma ClaimKeeps(s: State, w: nat, source: string, elapsed: nat, ttl: nat)
    requires Inv(s) && w < |s.workers|
    ensures Inv(NextClaim(s, w, source, elapsed, ttl))
  {
    var s' := NextClaim(s, w, source, elapsed, ttl);
    forall v | 0 <= v < |s'.workers| && s'.workers[v].job.Some? ensures JobInv(s', v) {
      assert s'.workers[v].job == s.workers[v].job && JobInv(s, v);
    }
  }

  lemma RenewKeeps(s: State, w: nat, source: string, ttl: nat)
    requires Inv(s) && w < |s.workers|
    ensures Inv(NextRenew(s, w, source, ttl))
  {
    var s' := NextRenew(s, w, source, ttl);
    forall v | 0 <= v < |s'.workers| && s'.workers[v].job.Some? ensures JobInv(s', v) {
      assert JobInv(s, v);
    }
  }

  lemma ReleaseKeeps(s: State, w: nat, source: string)
    requires Inv(s) && w < |s.workers|
    ensures Inv(NextRelease(s, w, source))
  {
    var s' := NextRelease(s, w, source);
    forall v | 0 <= v < |s'.workers| && s'.workers[v].job.Some? ensures JobInv(s', v) {
      assert s'.workers[v].job == s.workers[v].job && JobInv(s, v);
    }
  }

  lemma LookUpKeeps(s: State, w: nat, d: Definition, now: int)
    requires Inv(s) && w < |s.workers|
    ensures Inv(NextLookUp(s, w, d, now))
  {
    var s' := NextLookUp(s, w, d, now);
    if ValidInterval(d) { NewestSlotIsNewest(d, LastScheduled(s.results, d.source, d.kind), now); }
    forall v | 0 <= v < |s'.workers| && s'.workers[v].job.Some? ensures JobInv(s', v) {
      if v != w || s'.workers[v].job == s.workers[v].job { assert JobInv(s, v); }
    }
  }

  lemma LastAfter(results: seq<Record>, r: Record, source: string, kind: JobKind)
    ensures var last := LastScheduled(results + [r], source, kind);
            !(r.schedule.source == source && r.schedule.kind == kind) ==> last == LastScheduled(results, source, kind)
    ensures r.schedule.source != source ==> OfSource(results + [r], source) == OfSource(results, source)
  {
    assert (results + [r])[..|results|] == results;
  }

  lemma RecordIncreases(results: seq<Record>, r: Record)
    requires Increasing(results)
    requires var last := LastScheduled(results, r.schedule.source, r.schedule.kind); last.None? || last.value < r.slot
    ensures Increasing(results + [r])
  {
    forall i | 0 <= i < |results| && results[i].schedule.source == r.schedule.source
      && results[i].schedule.kind == r.schedule.kind
      ensures results[i].slot < r.slot
    {
      assert results[i] in results;
    }
  }

  lemma CommitKeeps(s: State, w: nat, duplicateId: bool)
    requires Inv(s) && w < |s.workers|
    ensures Inv(NextCommit(s, w, duplicateId))
  {
    var s' := NextCommit(s, w, duplicateId);
    if s.workers[w].job.Some? {
      assert JobInv(s, w);
      var job := s.workers[w].job.value;
      var r := Record(job.schedule, job.slot, job.readAt);
      if s'.results != s.results { RecordIncreases(s.results, r); }
      forall v | 0 <= v < |s'.workers| && s'.workers[v].job.Some? ensures JobInv(s', v) {
        assert s'.workers[v] == s.workers[v] && JobInv(s, v);
        var other := s.workers[v].job.value;
        LastAfter(s.results, r, other.schedule.source, other.schedule.kind);
      }
    }
  }

  lemma NextKeeps(s: State, e: Event)
    requires Inv(s)
    ensures Inv(Next(s, e))
  {
    match e
    case Tick(elapsed) =>
      forall v | 0 <= v < |s.workers| && s.workers[v].job.Some? ensures JobInv(Next(s, e), v) { assert JobInv(s, v); }
    case Claim(w, source, elapsed, ttl) => if w < |s.workers| { ClaimKeeps(s, w, source, elapsed, ttl); }
    case Renew(w, source, ttl) => if w < |s.workers| { RenewKeeps(s, w, source, ttl); }
    case Release(w, source) => if w < |s.workers| { ReleaseKeeps(s, w, source); }
    case Forget(w) =>
      forall v | 0 <= v < |s.workers| && Next(s, e).workers[v].job.Some? ensures JobInv(Next(s, e), v) {
        assert Next(s, e).workers[v] == s.workers[v] && JobInv(s, v);
      }
    case LookUp(w, d, now) => if w < |s.workers| { LookUpKeeps(s, w, d, now); }
    case Commit(w, duplicateId) => if w < |s.workers| { CommitKeeps(s, w, duplicateId); }
  }

  lemma {:induction false} RunKeeps(s: State, events: seq<Event>)
    requires Inv(s)
    ensures Inv(Run(s, events))
  {
    if events != [] {
      RunKeeps(s, events[..|events| - 1]);
      NextKeeps(Run(s, events[..|events| - 1]), events[|events| - 1]);
    }
  }

  /**
   For any number of workers, any interleaving and any clock readings: the slots
   recorded for a source and kind strictly increase, so none is recorded twice.
   */
  lemma RecordedSlotsIncrease(workers: nat, clock: int, events: seq<Event>, i: nat, j: nat)
    requires i < j < |Run(Start(workers, clock), events).results|
    ensures var results := Run(Start(workers, clock), events).results;
            results[i].schedule.source == results[j].schedule.source
              && results[i].schedule.kind == results[j].schedule.kind
            ==> results[i].slot < results[j].slot
  {
    RunKeeps(Start(workers, clock), events);
  }

  /** Every recorded slot is aligned to its schedule and was the newest not after the clock it was read by. */
  lemma RecordedSlotsAreRight(workers: nat, clock: int, events: seq<Event>, i: nat)
    requires i < |Run(Start(workers, clock), events).results|
    ensures var r := Run(Start(workers, clock), events).results[i];
            SlotIsRight(r.schedule, r.slot, r.readAt)
  {
    RunKeeps(Start(workers, clock), events);
  }

  /**
   A result is recorded only while the source has exactly the results the worker saw
   at its lookup: nobody else recorded anything for the source in between, however
   long the job ran and whatever happened to other leases.
   */
  lemma NothingWasRecordedSinceTheLookup(workers: nat, clock: int, events: seq<Event>, e: Event)
    requires |Next(Run(Start(workers, clock), events), e).results| > |Run(Start(workers, clock), events).results|
    ensures var s := Run(Start(workers, clock), events);
            && e.Commit? && e.worker < |s.workers| && s.workers[e.worker].job.Some?
            && var job := s.workers[e.worker].job.value;
               && Next(s, e).results == s.results + [Record(job.schedule, job.slot, job.readAt)]
               && OfSource(s.results, job.schedule.source) == job.view
               && s.leases[job.schedule.source].expiresAt > s.clock
  {
    var s := Run(Start(workers, clock), events);
    RunKeeps(Start(workers, clock), events);
    assert JobInv(s, e.worker);
  }

  // ----- What each call does

  /** No lease of the source is alive at the time. */
  ghost predicate IsFree(s: State, source: string, now: int) {
    source in s.leases ==> s.leases[source].expiresAt <= now
  }

  /** The worker's token is the current one of the source. */
  ghost predicate Owns(s: State, w: nat, source: string) {
    && w < |s.workers| && source in s.workers[w].fences && source in s.leases
    && s.leases[source].owner == w && s.leases[source].generation == s.workers[w].fences[source]
  }

  /** A claim takes a free source under a new generation and lets time pass. */
  lemma ClaimIsExact(s: State, w: nat, source: string, elapsed: nat, ttl: nat)
    requires w < |s.workers|
    ensures var s', now := Next(s, Claim(w, source, elapsed, ttl)), s.clock + 1 + elapsed;
            && s'.clock == now && s'.results == s.results
            && (IsFree(s, source, now) ==>
                  && s'.leases == s.leases[source := Lease(w, now, now + ttl)] && Owns(s', w, source)
                  && s'.workers == s.workers[w := s.workers[w].(fences := s.workers[w].fences[source := now])])
            && (!IsFree(s, source, now) ==> s'.leases == s.leases && s'.workers == s.workers)
  {
  }

  /** A renewal moves the expiry of a lease that is owned and alive, and does nothing else. */
  lemma RenewIsExact(s: State, w: nat, source: string, ttl: nat)
    requires w < |s.workers|
    ensures Next(s, Renew(w, source, ttl))
            == if Owns(s, w, source) && s.leases[source].expiresAt > s.clock
               then s.(leases := s.leases[source := s.leases[source].(expiresAt := s.clock + ttl)])
               else s
  {
  }

  /** A release gives an owned lease back and forgets the token. */
  lemma ReleaseIsExact(s: State, w: nat, source: string)
    requires w < |s.workers|
    ensures var s' := Next(s, Release(w, source));
            && s'.clock == s.clock && s'.results == s.results
            && s'.workers == s.workers[w := s.workers[w].(fences := s.workers[w].fences - {source})]
            && s'.leases == if Owns(s, w, source) then s.leases - {source} else s.leases
  {
    if source !in s.workers[w].fences {
      assert s.workers[w].fences - {source} == s.workers[w].fences;
      assert s.workers[w := s.workers[w]] == s.workers;
    }
  }

  lemma {:induction false} LastIsRecorded(results: seq<Record>, source: string, kind: JobKind)
    ensures var r := LastScheduled(results, source, kind);
            r.Some? ==>
              exists x :: x in results && x.schedule.source == source && x.schedule.kind == kind && x.slot == r.value
  {
    if results != [] {
      var init, last := results[..|results| - 1], results[|results| - 1];
      LastIsRecorded(init, source, kind);
      assert last in results && forall x | x in init :: x in results;
    }
  }

  /** No slot of the schedule that was reached is newer than everything recorded for its source and kind. */
  ghost predicate NothingIsDue(s: State, d: Definition, now: int) {
    forall k: nat | d.anchorAt + k * d.intervalMs <= now ::
      exists x :: x in s.results && x.schedule.source == d.source && x.schedule.kind == d.kind
                  && d.anchorAt + k * d.intervalMs <= x.slot
  }

  /**
   A worker that owns a live lease and is not disturbed records exactly what is due: looking a schedule up and
   committing appends its newest reached slot, or nothing when nothing is due.
   */
  lemma DueSlotsAreRecorded(s: State, w: nat, d: Definition, now: int)
    requires ValidInterval(d) && Owns(s, w, d.source) && s.leases[d.source].expiresAt > s.clock
    requires s.workers[w].job.None?
    ensures var s' := Next(Next(s, LookUp(w, d, now)), Commit(w, false));
            && (s'.results == s.results <==> NothingIsDue(s, d, now))
            && (s'.results != s.results ==>
                  && |s'.results| == |s.results| + 1
                  && s'.results == s.results + [Record(d, s'.results[|s.results|].slot, now)]
                  && SlotIsRight(d, s'.results[|s.results|].slot, now))
  {
    var last := LastScheduled(s.results, d.source, d.kind);
    NewestSlotIsNewest(d, last, now);
    LastIsRecorded(s.results, d.source, d.kind);
    var slot := NewestMissedSlot(d, last, now);
    var s1 := Next(s, LookUp(w, d, now));
    assert s1.leases == s.leases && s1.clock == s.clock && s1.results == s.results;
    if slot.Some? {
      assert FenceHolds(s1, d.source, w, s.workers[w].fences[d.source]);
      assert !NothingIsDue(s, d, now) by {
        var k: nat :| slot.value == d.anchorAt + k * d.intervalMs;
      }
    }
  }
}
