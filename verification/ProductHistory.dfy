/**
 The versions of source records over whole histories of batches (packages/db/src/ingestion.ts:
 `catalogCanonicalMutationDecision`, `resolveProductByGtin`, `appendCatalogObservation`).

 The log of a history is the list of records that took effect, as they were fed in. The
 observations are that list, and whether a later record is reviewed is decided by it.
 */
module ProductHistory {
  import opened Wrappers
  import opened ProductIdentity

  const EMPTY := Tables([], map[], map[], map[], [])

  datatype Fed = Fed(handle: RunHandle, outcome: CatalogOutcome)

  predicate InLog(log: seq<Fed>, h: RunHandle, o: CatalogOutcome) {
    exists f :: f in log && f.handle.id == h.id && f.outcome.recordId == o.recordId
  }

  /** A record enters the log when it is accepted, not reviewed and its run has no earlier one of its id. */
  ghost function StepLog(log: seq<Fed>, t: Tables, h: RunHandle, completed: set<nat>, o: CatalogOutcome): seq<Fed> {
    var r := ResolveCatalog(t, h, o, completed);
    if o.accepted && r.Resolved? && !r.review && !InLog(log, h, o) then log + [Fed(h, o)] else log
  }

  ghost function BatchLog(log: seq<Fed>, t: Tables, h: RunHandle, completed: set<nat>, outcomes: seq<CatalogOutcome>)
    : seq<Fed>
    requires CatalogBatch(t, h, completed, outcomes).Some?
  {
    if outcomes == [] then log
    else
      var init := outcomes[..|outcomes| - 1];
      StepLog(BatchLog(log, t, h, completed, init), CatalogBatch(t, h, completed, init).value, h, completed,
              outcomes[|outcomes| - 1])
  }

  /** Only a committed catalog batch adds to the log. */
  ghost function Log(batches: seq<Batch>): seq<Fed> {
    if batches == [] then []
    else
      var init, b := batches[..|batches| - 1], batches[|batches| - 1];
      var t := Perform(EMPTY, init);
      if b.CatalogWrite? && b.approved && !b.interrupted && CatalogBatch(t, b.handle, b.completed, b.outcomes).Some?
      then BatchLog(Log(init), t, b.handle, b.completed, b.outcomes)
      else Log(init)
  }

  // ----- The observations are the log

  ghost predicate Mirror(t: Tables, f: Fed, obs: Observation) {
    && f.outcome.gtin in t.gtins && obs == ObservationOf(f.handle, f.outcome, t.gtins[f.outcome.gtin].product)
    && obs.product < |t.products| && t.products[obs.product].status.Active?
    && KeyOf(f.handle, f.outcome) in t.sourceIds && t.sourceIds[KeyOf(f.handle, f.outcome)] == obs.product
    && KeyOf(f.handle, f.outcome) in t.sourceRows
  }

  ghost predicate Mirrors(t: Tables, log: seq<Fed>) {
    |t.observations| == |log| && forall i | 0 <= i < |log| :: Mirror(t, log[i], t.observations[i])
  }

  lemma MirrorIsKept(t: Tables, t': Tables, f: Fed, obs: Observation)
    requires Mirror(t, f, obs) && Kept(t, t')
    ensures Mirror(t', f, obs)
  {
    assert Evolves(t.products[obs.product], t'.products[obs.product]);
    assert IdentifierKept(t.gtins[f.outcome.gtin], t'.gtins[f.outcome.gtin]);
  }

  lemma SeenIffInLog(t: Tables, log: seq<Fed>, h: RunHandle, o: CatalogOutcome)
    requires Mirrors(t, log)
    ensures SeenInRun(t, h, o) <==> InLog(log, h, o)
  {
    if SeenInRun(t, h, o) {
      var i :| 0 <= i < |t.observations| && t.observations[i].run == h.id && t.observations[i].recordId == o.recordId;
      assert Mirror(t, log[i], t.observations[i]) && log[i] in log;
    }
    if InLog(log, h, o) {
      var i :| 0 <= i < |log| && log[i].handle.id == h.id && log[i].outcome.recordId == o.recordId;
      assert Mirror(t, log[i], t.observations[i]) && t.observations[i] in t.observations;
    }
  }

  lemma StepMirrors(t: Tables, log: seq<Fed>, h: RunHandle, completed: set<nat>, o: CatalogOutcome)
    requires Inv(t) && Mirrors(t, log) && CatalogStep(t, h, completed, o).Some?
    ensures Mirrors(CatalogStep(t, h, completed, o).value, StepLog(log, t, h, completed, o))
  {
    var t' := CatalogStep(t, h, completed, o).value;
    CatalogStepKeeps(t, h, completed, o);
    forall i | 0 <= i < |log| ensures Mirror(t', log[i], t.observations[i]) {
      MirrorIsKept(t, t', log[i], t.observations[i]);
    }
    if o.accepted && !ResolveCatalog(t, h, o, completed).review {
      UnreviewedRecordsTakeEffect(t, h, completed, o);
      SeenIffInLog(t, log, h, o);
      hide Inv, Kept, CatalogStep, ResolveCatalog, InLog, SeenInRun, ChangesOnly;
      NewestMirrors(t, t', log, h, o);
    } else {
      if o.accepted { ReviewedIff(t, h, o, completed); }
      hide Inv, Kept, Mirror, InLog;
    }
  }

  lemma NewestMirrors(t: Tables, t': Tables, log: seq<Fed>, h: RunHandle, o: CatalogOutcome)
    requires InEffect(t, t', h, o) && |t.observations| == |log|
    requires forall i | 0 <= i < |log| :: Mirror(t', log[i], t.observations[i])
    ensures Mirrors(t', if SeenInRun(t, h, o) then log else log + [Fed(h, o)])
  {
    hide SeenInRun;
  }

  lemma {:induction false} BatchMirrors(t: Tables, log: seq<Fed>, h: RunHandle, completed: set<nat>,
                                        outcomes: seq<CatalogOutcome>)
    requires Inv(t) && Mirrors(t, log) && CatalogBatch(t, h, completed, outcomes).Some?
    ensures Mirrors(CatalogBatch(t, h, completed, outcomes).value, BatchLog(log, t, h, completed, outcomes))
  {
    hide Inv, Mirrors, StepLog, CatalogStep;
    if outcomes != [] {
      var init := outcomes[..|outcomes| - 1];
      BatchMirrors(t, log, h, completed, init);
      CatalogBatchKeeps(t, h, completed, init);
      StepMirrors(CatalogBatch(t, h, completed, init).value, BatchLog(log, t, h, completed, init), h, completed,
                  outcomes[|outcomes| - 1]);
    }
  }

  /**
   After any history of batches the observations are the records that took effect, one for
   one and in order, each with its run, source, id, time and version as they were fed in and the
   product that its GTIN and its key still stand for.
   */
  lemma {:induction false} ObservationsAreTheLog(batches: seq<Batch>)
    ensures Inv(Perform(EMPTY, batches)) && Mirrors(Perform(EMPTY, batches), Log(batches))
  {
    if batches != [] {
      var init, b := batches[..|batches| - 1], batches[|batches| - 1];
      ObservationsAreTheLog(init);
      BatchStepMirrors(Perform(EMPTY, init), Log(init), b);
      hide Inv, Mirrors, Next;
    }
  }

  lemma BatchStepMirrors(t: Tables, log: seq<Fed>, b: Batch)
    requires Inv(t) && Mirrors(t, log)
    ensures Inv(Next(t, b))
    ensures Mirrors(Next(t, b),
                    if b.CatalogWrite? && b.approved && !b.interrupted
                       && CatalogBatch(t, b.handle, b.completed, b.outcomes).Some?
                    then BatchLog(log, t, b.handle, b.completed, b.outcomes) else log)
  {
    ProductIdentity.NextKeeps(t, b);
    if b.CatalogWrite? {
      if CatalogBatch(t, b.handle, b.completed, b.outcomes).Some? {
        BatchMirrors(t, log, b.handle, b.completed, b.outcomes);
      }
    } else if PriceBatch(t, b.prices).Some? {
      PriceBatchesOnlyAdd(t, b.prices);
      var t' := PriceBatch(t, b.prices).value;
      forall i | 0 <= i < |log| ensures Mirror(t', log[i], t.observations[i]) {
        MirrorIsKept(t, t', log[i], t.observations[i]);
      }
    }
    hide Inv, Kept, CatalogBatch, PriceBatch, BatchLog, Mirror;
  }

  // ----- Which version counts

  /** The record was sighted in a completed run of the source. */
  predicate Sighted(f: Fed, source: string, recordId: string, completed: set<nat>) {
    f.handle.id in completed && f.handle.source == source && f.outcome.recordId == recordId
  }

  /** The latest sighting by retrieval time, the later one of equals. */
  ghost predicate IsLatest(log: seq<Fed>, i: nat, source: string, recordId: string, completed: set<nat>) {
    && i < |log| && Sighted(log[i], source, recordId, completed)
    && forall j | 0 <= j < |log| && Sighted(log[j], source, recordId, completed) ::
         var a, b := log[j].outcome.product.retrievedAt, log[i].outcome.product.retrievedAt;
         a < b || (a == b && j <= i)
  }

  lemma {:induction false} LatestIsFound(observations: seq<Observation>, h: RunHandle, recordId: string, product: nat,
                                         completed: set<nat>, i: nat)
    requires i < |observations| && Counts(observations[i], h, recordId, product, completed)
    requires forall j | 0 <= j < |observations| && Counts(observations[j], h, recordId, product, completed) ::
               observations[j].retrievedAt < observations[i].retrievedAt
               || (observations[j].retrievedAt == observations[i].retrievedAt && j <= i)
    ensures LatestCompleted(observations, h, recordId, product, completed) == Some(observations[i])
  {
    var last := |observations| - 1;
    hide Counts;
    if i < last {
      var init := observations[..last];
      assert init[i] == observations[i];
      LatestIsFound(init, h, recordId, product, completed, i);
    } else {
      assert forall obs | obs in observations[..last] && Counts(obs, h, recordId, product, completed) ::
        obs.retrievedAt <= observations[last].retrievedAt;
    }
  }

  lemma CountsIffSighted(t: Tables, log: seq<Fed>, h: RunHandle, recordId: string, p: nat, completed: set<nat>, i: nat)
    requires Mirrors(t, log) && i < |log|
    requires SourceKey(h.source, recordId) in t.sourceIds && t.sourceIds[SourceKey(h.source, recordId)] == p
    ensures Counts(t.observations[i], h, recordId, p, completed) <==> Sighted(log[i], h.source, recordId, completed)
  {
    assert Mirror(t, log[i], t.observations[i]);
  }

  lemma LatestOfTheLog(t: Tables, log: seq<Fed>, h: RunHandle, recordId: string, p: nat, completed: set<nat>)
    requires Mirrors(t, log)
    requires SourceKey(h.source, recordId) in t.sourceIds && t.sourceIds[SourceKey(h.source, recordId)] == p
    ensures forall i: nat | IsLatest(log, i, h.source, recordId, completed) ::
              LatestCompleted(t.observations, h, recordId, p, completed) == Some(t.observations[i])
    ensures LatestCompleted(t.observations, h, recordId, p, completed).Some? ==>
              exists i: nat :: IsLatest(log, i, h.source, recordId, completed)
  {
    forall i | 0 <= i < |log|
      ensures Counts(t.observations[i], h, recordId, p, completed) <==> Sighted(log[i], h.source, recordId, completed)
      ensures t.observations[i].retrievedAt == log[i].outcome.product.retrievedAt
    {
      CountsIffSighted(t, log, h, recordId, p, completed, i);
      assert Mirror(t, log[i], t.observations[i]);
    }
    hide Mirrors, Counts, Sighted;
    forall i: nat | IsLatest(log, i, h.source, recordId, completed)
      ensures LatestCompleted(t.observations, h, recordId, p, completed) == Some(t.observations[i])
    {
      LatestIsFound(t.observations, h, recordId, p, completed, i);
    }
    if LatestCompleted(t.observations, h, recordId, p, completed).Some? {
      var obs := LatestCompleted(t.observations, h, recordId, p, completed).value;
      var k :| 0 <= k < |t.observations| && t.observations[k] == obs;
      var i := LatestExists(log, h.source, recordId, completed, k);
    }
  }

  lemma {:induction false} LatestExists(log: seq<Fed>, source: string, recordId: string, completed: set<nat>, k: nat)
    returns (i: nat)
    requires k < |log| && Sighted(log[k], source, recordId, completed)
    ensures IsLatest(log, i, source, recordId, completed)
  {
    hide Sighted;
    i := k;
    for j := 0 to |log|
      invariant i < |log| && Sighted(log[i], source, recordId, completed)
      invariant forall m | 0 <= m < j && Sighted(log[m], source, recordId, completed) ::
                  var a, b := log[m].outcome.product.retrievedAt, log[i].outcome.product.retrievedAt;
                  a < b || (a == b && m <= i)
    {
      if Sighted(log[j], source, recordId, completed) {
        var a, b := log[j].outcome.product.retrievedAt, log[i].outcome.product.retrievedAt;
        if a > b || (a == b && j > i) { i := j; }
      }
    }
  }

  /** The source's own record of the GTIN took effect before. */
  ghost predicate Known(log: seq<Fed>, h: RunHandle, o: CatalogOutcome) {
    exists i :: 0 <= i < |log| && KeyOf(log[i].handle, log[i].outcome) == KeyOf(h, o) && log[i].outcome.gtin == o.gtin
  }

  /** The latest sighting in a completed run carried a version that the record does not exceed. */
  ghost predicate IsStale(log: seq<Fed>, h: RunHandle, o: CatalogOutcome, completed: set<nat>) {
    || o.product.sourceUpdatedAt.None?
    || exists i: nat ::
         && IsLatest(log, i, h.source, o.recordId, completed)
         && log[i].outcome.product.sourceUpdatedAt.Some?
         && o.product.sourceUpdatedAt.value <= log[i].outcome.product.sourceUpdatedAt.value
  }

  /**
   After any history: a record of a known source key with other fields than its product goes to
   review exactly when it has no version, or the latest sighting of that key in a completed run
   was fed in with a version at least as new.
   */
  lemma ReviewedIffStale(batches: seq<Batch>, h: RunHandle, o: CatalogOutcome, completed: set<nat>)
    requires o.validGtin && Known(Log(batches), h, o)
    ensures var t := Perform(EMPTY, batches);
            && o.gtin in t.gtins && t.gtins[o.gtin].product < |t.products|
            && (t.products[t.gtins[o.gtin].product].fields != o.product.fields ==>
                  (ResolveCatalog(t, h, o, completed).review <==> IsStale(Log(batches), h, o, completed)))
  {
    var t, log := Perform(EMPTY, batches), Log(batches);
    ObservationsAreTheLog(batches);
    var k :| 0 <= k < |log| && KeyOf(log[k].handle, log[k].outcome) == KeyOf(h, o) && log[k].outcome.gtin == o.gtin;
    assert Mirror(t, log[k], t.observations[k]);
    var p := t.gtins[o.gtin].product;
    hide Perform, Log;
    LatestOfTheLog(t, log, h, o.recordId, p, completed);
    VersionsAgree(t, log, h, o, completed, p);
    ReviewedIff(t, h, o, completed);
    hide Inv, ResolveCatalog, IsStale;
  }

  lemma VersionsAgree(t: Tables, log: seq<Fed>, h: RunHandle, o: CatalogOutcome, completed: set<nat>, p: nat)
    requires Mirrors(t, log) && KeyOf(h, o) in t.sourceIds && t.sourceIds[KeyOf(h, o)] == p
    requires o.gtin in t.gtins && t.gtins[o.gtin].product == p
    ensures CorrectsFromItsOwnRecord(t, h, completed, o.(accepted := true), p) <==> !IsStale(log, h, o, completed)
  {
    LatestOfTheLog(t, log, h, o.recordId, p, completed);
    forall i: nat | IsLatest(log, i, h.source, o.recordId, completed)
      ensures t.observations[i].sourceUpdatedAt == log[i].outcome.product.sourceUpdatedAt
    {
      assert Mirror(t, log[i], t.observations[i]);
    }
    hide Mirrors, IsLatest;
    var latest := LatestCompleted(t.observations, h, o.recordId, p, completed);
    if latest.Some? {
      var i: nat :| IsLatest(log, i, h.source, o.recordId, completed);
      assert latest == Some(t.observations[i]);
    }
  }
}
