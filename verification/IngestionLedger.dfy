/**
 The append-only outcome ledger of ingestion runs
 (packages/db/src/ingestion.ts: `beginRun`, `auditOutcomes`, `finalizeRun`).

 A call is one transaction: it commits all of its effect or, on any error, none.
 `interrupted` stands for everything outside the tables that can make it throw
 (a stale fence before or after the work, cancellation, a lost connection).
 */
module IngestionLedger {
  import opened WorkerContracts
  import opened Wrappers
  import Runner

  datatype OutcomeState = Accepted | Quarantined | Unknown

  datatype RunState = Running | Completed | Degraded | CancelledRun | FailedRun

  /** `hash` is the digest of the outcome's semantic fields; `valid` the result of its validation. */
  datatype Outcome = Outcome(kind: string, recordId: string, state: OutcomeState, hash: int, valid: bool)

  datatype Row = Row(run: nat, kind: string, recordId: string, state: OutcomeState, hash: int)

  datatype Run = Run(jobId: string, source: string, runType: string, startedAt: int, status: RunState, counts: Counters)

  datatype Handle = Handle(id: nat, jobId: string, source: string, runType: string)

  /** Run ids are positions in `runs`; `ledger` keeps insertion order. */
  datatype Database = Database(runs: seq<Run>, ledger: seq<Row>)

  const EMPTY := Database([], [])

  datatype Result<+T> = Committed(value: T) | RolledBack

  datatype BeginReceipt = BeginReceipt(created: bool, handle: Handle, status: RunState)

  datatype WriteReceipt = WriteReceipt(inserted: nat, received: nat)

  datatype FinalReceipt = FinalReceipt(counts: Counters, status: RunState)

  const MAX_OUTCOMES := 1000

  // ----- Counting

  function CountOf(states: seq<OutcomeState>, s: OutcomeState): nat {
    if states == [] then 0 else (if states[0] == s then 1 else 0) + CountOf(states[1..], s)
  }

  function Reconstruct(states: seq<OutcomeState>, failed: nat): Counters {
    Counters(|states|, CountOf(states, Accepted), CountOf(states, Quarantined), CountOf(states, Unknown), |states|,
             failed)
  }

  lemma {:induction false} CountsAddUp(states: seq<OutcomeState>)
    ensures CountOf(states, Accepted) + CountOf(states, Quarantined) + CountOf(states, Unknown) == |states|
  {
    if states != [] { CountsAddUp(states[1..]); }
  }

  lemma {:induction false} CountOfAppend(states: seq<OutcomeState>, next: OutcomeState, s: OutcomeState)
    ensures CountOf(states + [next], s) == CountOf(states, s) + (if next == s then 1 else 0)
  {
    if states == [] {
      assert states + [next] == [next];
    } else {
      assert (states + [next])[1..] == states[1..] + [next];
      CountOfAppend(states[1..], next, s);
    }
  }

  /** `reconstructIngestionRunCounters`: one pass over the stored states. */
  method ReconstructCounters(states: seq<OutcomeState>, failed: nat) returns (c: Counters)
    ensures c == Reconstruct(states, failed)
    ensures Accounted(c)
  {
    c := Counters(|states|, 0, 0, 0, |states|, failed);
    for i := 0 to |states|
      invariant c == Counters(|states|, CountOf(states[..i], Accepted), CountOf(states[..i], Quarantined),
                              CountOf(states[..i], Unknown), |states|, failed)
    {
      assert states[..i + 1] == states[..i] + [states[i]];
      CountOfAppend(states[..i], states[i], Accepted);
      CountOfAppend(states[..i], states[i], Quarantined);
      CountOfAppend(states[..i], states[i], Unknown);
      match states[i]
      case Accepted => c := c.(accepted := c.accepted + 1);
      case Quarantined => c := c.(quarantined := c.quarantined + 1);
      case Unknown => c := c.(unknown := c.unknown + 1);
    }
    assert states[..|states|] == states;
    CountsAddUp(states);
  }

  // ----- Transactions as functions of the database

  predicate SameKey(r: Row, run: nat, o: Outcome) {
    r.run == run && r.kind == o.kind && r.recordId == o.recordId
  }

  /** The stored row of an outcome's identity within a run. */
  function Find(ledger: seq<Row>, run: nat, o: Outcome): (r: Option<Row>)
    ensures r.Some? ==> r.value in ledger && SameKey(r.value, run, o)
    ensures r.None? ==> forall row | row in ledger :: !SameKey(row, run, o)
  {
    if ledger == [] then None
    else if SameKey(ledger[0], run, o) then Some(ledger[0])
    else Find(ledger[1..], run, o)
  }

  function FindJob(runs: seq<Run>, jobId: string): (r: Option<nat>)
    ensures r.Some? ==> r.value < |runs| && runs[r.value].jobId == jobId
    ensures r.None? ==> forall i | 0 <= i < |runs| :: runs[i].jobId != jobId
  {
    if runs == [] then None
    else if runs[|runs| - 1].jobId == jobId then Some(|runs| - 1)
    else FindJob(runs[..|runs| - 1], jobId)
  }

  function Begin(db: Database, jobId: string, source: string, runType: string, startedAt: int, interrupted: bool)
    : (Database, Result<BeginReceipt>)
  {
    var existing := FindJob(db.runs, jobId);
    if interrupted then (db, RolledBack)
    else if existing.None? then
      (db.(runs := db.runs + [Run(jobId, source, runType, startedAt, Running, Reconstruct([], 0))]),
       Committed(BeginReceipt(true, Handle(|db.runs|, jobId, source, runType), Running)))
    else
      var run := db.runs[existing.value];
      if run.source != source || run.runType != runType then (db, RolledBack)
      else (db, Committed(BeginReceipt(false, Handle(existing.value, jobId, source, runType), run.status)))
  }

  predicate HandleMatches(db: Database, h: Handle) {
    && h.id < |db.runs|
    && db.runs[h.id].jobId == h.jobId && db.runs[h.id].source == h.source && db.runs[h.id].runType == h.runType
  }

  /** `auditOutcomesWithin`: the ledger after the outcomes, or nothing on a conflict or invalid outcome. */
  function Append(ledger: seq<Row>, run: nat, outcomes: seq<Outcome>): (r: Option<seq<Row>>)
    ensures r.Some? ==> ledger <= r.value && |r.value| <= |ledger| + |outcomes|
    decreases |outcomes|
  {
    if outcomes == [] then Some(ledger)
    else
      var o := outcomes[0];
      var existing := Find(ledger, run, o);
      if !o.valid then None
      else if existing.None? then
        Append(ledger + [Row(run, o.kind, o.recordId, o.state, o.hash)], run, outcomes[1..])
      else if existing.value.hash == o.hash then Append(ledger, run, outcomes[1..])
      else None
  }

  function Audit(db: Database, h: Handle, outcomes: seq<Outcome>, interrupted: bool): (Database, Result<WriteReceipt>) {
    if interrupted || |outcomes| > MAX_OUTCOMES || !HandleMatches(db, h) || !db.runs[h.id].status.Running?
    then (db, RolledBack)
    else
      match Append(db.ledger, h.id, outcomes)
      case None => (db, RolledBack)
      case Some(ledger) => (db.(ledger := ledger), Committed(WriteReceipt(|ledger| - |db.ledger|, |outcomes|)))
  }

  function StatesOf(ledger: seq<Row>, run: nat): seq<OutcomeState> {
    if ledger == [] then []
    else (if ledger[0].run == run then [ledger[0].state] else []) + StatesOf(ledger[1..], run)
  }

  function Finalize(db: Database, h: Handle, status: RunState, failed: int, completedAt: int, interrupted: bool)
    : (Database, Result<FinalReceipt>)
  {
    if interrupted || !InCounterRange(failed) || status.Running? || (status.Completed? && failed > 0)
      || !HandleMatches(db, h)
    then (db, RolledBack)
    else
      var run := db.runs[h.id];
      if !run.status.Running? then
        (db, if run.status == status then Committed(FinalReceipt(run.counts, run.status)) else RolledBack)
      else if completedAt < run.startedAt then (db, RolledBack)
      else Close(db, h.id, status, failed)
  }

  function Close(db: Database, id: nat, status: RunState, failed: nat): (Database, Result<FinalReceipt>)
    requires id < |db.runs|
  {
    var counts := Reconstruct(StatesOf(db.ledger, id), failed);
    (db.(runs := db.runs[id := db.runs[id].(status := status, counts := counts)]),
     Committed(FinalReceipt(counts, status)))
  }

  datatype Call =
    | BeginCall(jobId: string, source: string, runType: string, startedAt: int, interrupted: bool)
    | AuditCall(handle: Handle, outcomes: seq<Outcome>, interrupted: bool)
    | FinalizeCall(handle: Handle, status: RunState, failed: int, completedAt: int, interrupted: bool)

  function Next(db: Database, c: Call): Database {
    match c
    case BeginCall(jobId, source, runType, startedAt, interrupted) =>
      Begin(db, jobId, source, runType, startedAt, interrupted).0
    case AuditCall(handle, outcomes, interrupted) => Audit(db, handle, outcomes, interrupted).0
    case FinalizeCall(handle, status, failed, completedAt, interrupted) =>
      Finalize(db, handle, status, failed, completedAt, interrupted).0
  }

  function Perform(db: Database, calls: seq<Call>): Database
    decreases |calls|
  {
    if calls == [] then db else Perform(Next(db, calls[0]), calls[1..])
  }

  // ----- What one audit does

  ghost predicate Agrees(row: Row, run: nat, o: Outcome) {
    SameKey(row, run, o) ==> row.hash == o.hash
  }

  /** Each outcome is valid and agrees with the stored rows and with earlier outcomes of its identity. */
  ghost predicate Compatible(ledger: seq<Row>, run: nat, outcomes: seq<Outcome>) {
    && (forall i | 0 <= i < |outcomes| :: outcomes[i].valid)
    && (forall i, r | 0 <= i < |outcomes| && 0 <= r < |ledger| :: Agrees(ledger[r], run, outcomes[i]))
    && (forall i, j | 0 <= i < j < |outcomes| && outcomes[i].kind == outcomes[j].kind
                      && outcomes[i].recordId == outcomes[j].recordId :: outcomes[i].hash == outcomes[j].hash)
  }

  ghost predicate UniqueKeys(ledger: seq<Row>) {
    forall i, j | 0 <= i < j < |ledger| ::
      !(ledger[i].run == ledger[j].run && ledger[i].kind == ledger[j].kind && ledger[i].recordId == ledger[j].recordId)
  }

  lemma CompatibleTail(ledger: seq<Row>, run: nat, outcomes: seq<Outcome>, row: Row)
    requires outcomes != [] && outcomes[0].valid
    requires row == Row(run, outcomes[0].kind, outcomes[0].recordId, outcomes[0].state, outcomes[0].hash)
    requires Find(ledger, run, outcomes[0]).None?
    ensures Compatible(ledger, run, outcomes) <==> Compatible(ledger + [row], run, outcomes[1..])
  {
    var tail := outcomes[1..];
    var grown := ledger + [row];
    assert forall i | 1 <= i < |outcomes| :: outcomes[i] == tail[i - 1];
    assert forall r | 0 <= r < |ledger| :: grown[r] == ledger[r] && ledger[r] in ledger;
    if Compatible(grown, run, tail) {
      forall j | 1 <= j < |outcomes| && outcomes[0].kind == outcomes[j].kind
        && outcomes[0].recordId == outcomes[j].recordId
        ensures outcomes[0].hash == outcomes[j].hash
      {
        assert Agrees(grown[|ledger|], run, tail[j - 1]);
      }
    }
  }

  lemma CompatibleReplay(ledger: seq<Row>, run: nat, outcomes: seq<Outcome>, r: nat)
    requires outcomes != [] && outcomes[0].valid && UniqueKeys(ledger)
    requires r < |ledger| && SameKey(ledger[r], run, outcomes[0]) && ledger[r].hash == outcomes[0].hash
    ensures Compatible(ledger, run, outcomes) <==> Compatible(ledger, run, outcomes[1..])
  {
    var tail := outcomes[1..];
    assert forall i | 1 <= i < |outcomes| :: outcomes[i] == tail[i - 1];
    if Compatible(ledger, run, tail) {
      forall j | 1 <= j < |outcomes| && outcomes[0].kind == outcomes[j].kind
        && outcomes[0].recordId == outcomes[j].recordId
        ensures outcomes[0].hash == outcomes[j].hash
      {
        assert Agrees(ledger[r], run, tail[j - 1]);
      }
    }
  }

  lemma AppendKeepsUnique(ledger: seq<Row>, run: nat, o: Outcome)
    requires UniqueKeys(ledger) && Find(ledger, run, o).None?
    ensures UniqueKeys(ledger + [Row(run, o.kind, o.recordId, o.state, o.hash)])
  {
    assert forall r | 0 <= r < |ledger| :: ledger[r] in ledger;
  }

  /** An audit goes through exactly when nothing in it contradicts the ledger or itself. */
  lemma {:induction false} AppendSucceedsIffCompatible(ledger: seq<Row>, run: nat, outcomes: seq<Outcome>)
    requires UniqueKeys(ledger)
    ensures Append(ledger, run, outcomes).Some? <==> Compatible(ledger, run, outcomes)
    ensures Append(ledger, run, outcomes).Some? ==> UniqueKeys(Append(ledger, run, outcomes).value)
    decreases |outcomes|
  {
    if outcomes != [] && outcomes[0].valid {
      var o := outcomes[0];
      var existing := Find(ledger, run, o);
      if existing.None? {
        var row := Row(run, o.kind, o.recordId, o.state, o.hash);
        AppendKeepsUnique(ledger, run, o);
        CompatibleTail(ledger, run, outcomes, row);
        AppendSucceedsIffCompatible(ledger + [row], run, outcomes[1..]);
      } else {
        var r :| 0 <= r < |ledger| && ledger[r] == existing.value;
        if existing.value.hash == o.hash {
          CompatibleReplay(ledger, run, outcomes, r);
          AppendSucceedsIffCompatible(ledger, run, outcomes[1..]);
        } else {
          assert !Agrees(ledger[r], run, outcomes[0]);
        }
      }
    }
  }

  lemma {:induction false} FindInPrefix(ledger: seq<Row>, more: seq<Row>, run: nat, o: Outcome)
    requires Find(ledger, run, o).Some?
    ensures Find(ledger + more, run, o) == Find(ledger, run, o)
  {
    assert (ledger + more)[0] == ledger[0];
    if !SameKey(ledger[0], run, o) {
      assert (ledger + more)[1..] == ledger[1..] + more;
      FindInPrefix(ledger[1..], more, run, o);
    }
  }

  /** After an audit every outcome of it is stored under its identity with its hash. */
  lemma {:induction false} AppendStoresAll(ledger: seq<Row>, run: nat, outcomes: seq<Outcome>, i: nat)
    requires Append(ledger, run, outcomes).Some? && i < |outcomes|
    ensures var found := Find(Append(ledger, run, outcomes).value, run, outcomes[i]);
            found.Some? && found.value.hash == outcomes[i].hash && outcomes[i].valid
    decreases |outcomes|
  {
    var o := outcomes[0];
    var existing := Find(ledger, run, o);
    var row := Row(run, o.kind, o.recordId, o.state, o.hash);
    var grown := if existing.None? then ledger + [row] else ledger;
    assert Append(ledger, run, outcomes) == Append(grown, run, outcomes[1..]);
    if i == 0 {
      if existing.None? { FindsNew(ledger, row, run, o); }
      var final := Append(grown, run, outcomes[1..]).value;
      assert final == grown + final[|grown|..];
      FindInPrefix(grown, final[|grown|..], run, o);
    } else {
      AppendStoresAll(grown, run, outcomes[1..], i - 1);
    }
  }

  /** Every row an audit adds is one of its outcomes, of an identity that had no row. */
  lemma {:induction false} AppendedRowsAreOutcomes(ledger: seq<Row>, run: nat, outcomes: seq<Outcome>, r: nat)
    returns (i: nat)
    requires Append(ledger, run, outcomes).Some? && |ledger| <= r < |Append(ledger, run, outcomes).value|
    ensures i < |outcomes|
    ensures var row, o := Append(ledger, run, outcomes).value[r], outcomes[i];
            row == Row(run, o.kind, o.recordId, o.state, o.hash) && Find(ledger, run, o).None?
    decreases |outcomes|
  {
    var o := outcomes[0];
    if Find(ledger, run, o).Some? {
      i := AppendedRowsAreOutcomes(ledger, run, outcomes[1..], r);
      i := i + 1;
    } else {
      var row := Row(run, o.kind, o.recordId, o.state, o.hash);
      if r == |ledger| {
        i := 0;
      } else {
        i := AppendedRowsAreOutcomes(ledger + [row], run, outcomes[1..], r);
        NotFoundBefore(ledger, row, run, outcomes[1..][i]);
        i := i + 1;
      }
    }
  }

  lemma {:induction false} NotFoundBefore(ledger: seq<Row>, row: Row, run: nat, o: Outcome)
    requires Find(ledger + [row], run, o).None?
    ensures Find(ledger, run, o).None?
  {
    if Find(ledger, run, o).Some? { FindInPrefix(ledger, [row], run, o); }
  }

  lemma {:induction false} FindsNew(ledger: seq<Row>, row: Row, run: nat, o: Outcome)
    requires Find(ledger, run, o).None? && SameKey(row, run, o)
    ensures Find(ledger + [row], run, o) == Some(row)
  {
    if ledger == [] {
      assert ledger + [row] == [row];
    } else {
      assert (ledger + [row])[0] == ledger[0] && ledger[0] in ledger;
      assert (ledger + [row])[1..] == ledger[1..] + [row];
      FindsNew(ledger[1..], row, run, o);
    }
  }

  lemma {:induction false} AppendReplays(ledger: seq<Row>, run: nat, outcomes: seq<Outcome>)
    requires forall i | 0 <= i < |outcomes| ::
               outcomes[i].valid && Find(ledger, run, outcomes[i]).Some?
                 && Find(ledger, run, outcomes[i]).value.hash == outcomes[i].hash
    ensures Append(ledger, run, outcomes) == Some(ledger)
    decreases |outcomes|
  {
    if outcomes != [] {
      assert outcomes[0].valid;
      AppendReplays(ledger, run, outcomes[1..]);
    }
  }

  /** Repeating a committed audit commits again and adds nothing. */
  lemma ReplayAddsNothing(db: Database, h: Handle, outcomes: seq<Outcome>)
    requires Audit(db, h, outcomes, false).1.Committed?
    ensures var db' := Audit(db, h, outcomes, false).0;
            Audit(db', h, outcomes, false) == (db', Committed(WriteReceipt(0, |outcomes|)))
  {
    var ledger := Append(db.ledger, h.id, outcomes).value;
    forall i | 0 <= i < |outcomes|
      ensures outcomes[i].valid && Find(ledger, h.id, outcomes[i]).Some?
              && Find(ledger, h.id, outcomes[i]).value.hash == outcomes[i].hash
    {
      AppendStoresAll(db.ledger, h.id, outcomes, i);
    }
    AppendReplays(ledger, h.id, outcomes);
  }

  // ----- What every sequence of calls keeps

  ghost predicate RunInv(db: Database, id: nat)
    requires id < |db.runs|
  {
    var run := db.runs[id];
    if run.status.Running? then run.counts == Reconstruct([], 0)
    else
      && InCounterRange(run.counts.failed)
      && run.counts == Reconstruct(StatesOf(db.ledger, id), run.counts.failed)
      && (run.status.Completed? ==> run.counts.failed == 0)
  }

  ghost predicate Inv(db: Database) {
    && UniqueKeys(db.ledger)
    && (forall r | 0 <= r < |db.ledger| :: db.ledger[r].run < |db.runs|)
    && (forall i, j | 0 <= i < j < |db.runs| :: db.runs[i].jobId != db.runs[j].jobId)
    && (forall id | 0 <= id < |db.runs| :: RunInv(db, id))
  }

  /** Rows are never altered or removed, runs keep their identity, a terminal run is frozen with its rows. */
  ghost predicate Kept(db: Database, db': Database) {
    && db.ledger <= db'.ledger
    && |db.runs| <= |db'.runs|
    && (forall id | 0 <= id < |db.runs| ::
          && db'.runs[id].jobId == db.runs[id].jobId
          && db'.runs[id].source == db.runs[id].source
          && db'.runs[id].runType == db.runs[id].runType
          && db'.runs[id].startedAt == db.runs[id].startedAt
          && (!db.runs[id].status.Running? ==>
                db'.runs[id] == db.runs[id] && StatesOf(db'.ledger, id) == StatesOf(db.ledger, id)))
  }

  lemma {:induction false} StatesOfConcat(a: seq<Row>, b: seq<Row>, run: nat)
    ensures StatesOf(a + b, run) == StatesOf(a, run) + StatesOf(b, run)
  {
    if a == [] {
      assert a + b == b;
    } else {
      var first := if a[0].run == run then [a[0].state] else [];
      assert (a + b)[0] == a[0] && (a + b)[1..] == a[1..] + b;
      calc {
        StatesOf(a + b, run);
        first + StatesOf(a[1..] + b, run);
        { StatesOfConcat(a[1..], b, run); }
        first + (StatesOf(a[1..], run) + StatesOf(b, run));
        (first + StatesOf(a[1..], run)) + StatesOf(b, run);
        StatesOf(a, run) + StatesOf(b, run);
      }
    }
  }

  /** An audit adds rows of its own run only. */
  lemma {:induction false} AppendTouchesOneRun(ledger: seq<Row>, run: nat, outcomes: seq<Outcome>, other: nat)
    requires Append(ledger, run, outcomes).Some?
    ensures forall r | |ledger| <= r < |Append(ledger, run, outcomes).value| ::
              Append(ledger, run, outcomes).value[r].run == run
    ensures other != run ==> StatesOf(Append(ledger, run, outcomes).value, other) == StatesOf(ledger, other)
    decreases |outcomes|
  {
    if outcomes != [] {
      var o := outcomes[0];
      if Find(ledger, run, o).None? {
        var row := Row(run, o.kind, o.recordId, o.state, o.hash);
        AppendTouchesOneRun(ledger + [row], run, outcomes[1..], other);
        StatesOfConcat(ledger, [row], other);
        assert [row][1..] == [];
      } else {
        AppendTouchesOneRun(ledger, run, outcomes[1..], other);
      }
    }
  }

  lemma {:induction false} NoRowsOfNewRun(ledger: seq<Row>, run: nat)
    requires forall r | 0 <= r < |ledger| :: ledger[r].run != run
    ensures StatesOf(ledger, run) == []
  {
    if ledger != [] { NoRowsOfNewRun(ledger[1..], run); }
  }

  lemma BeginKeeps(db: Database, jobId: string, source: string, runType: string, startedAt: int, interrupted: bool)
    requires Inv(db)
    ensures var db' := Begin(db, jobId, source, runType, startedAt, interrupted).0; Inv(db') && Kept(db, db')
  {
    var db' := Begin(db, jobId, source, runType, startedAt, interrupted).0;
    forall id | 0 <= id < |db.runs| ensures RunInv(db', id) {
      assert RunInv(db, id);
    }
  }

  lemma AuditKeeps(db: Database, h: Handle, outcomes: seq<Outcome>, interrupted: bool)
    requires Inv(db)
    ensures var db' := Audit(db, h, outcomes, interrupted).0; Inv(db') && Kept(db, db')
  {
    var (db', r) := Audit(db, h, outcomes, interrupted);
    if r.Committed? {
      AppendSucceedsIffCompatible(db.ledger, h.id, outcomes);
      AppendTouchesOneRun(db.ledger, h.id, outcomes, h.id);
      forall id | 0 <= id < |db.runs|
        ensures RunInv(db', id) && (id != h.id ==> StatesOf(db'.ledger, id) == StatesOf(db.ledger, id))
      {
        assert RunInv(db, id);
        AppendTouchesOneRun(db.ledger, h.id, outcomes, id);
      }
    }
  }

  lemma FinalizeKeeps(db: Database, h: Handle, status: RunState, failed: int, completedAt: int, interrupted: bool)
    requires Inv(db)
    ensures var db' := Finalize(db, h, status, failed, completedAt, interrupted).0; Inv(db') && Kept(db, db')
  {
    var db' := Finalize(db, h, status, failed, completedAt, interrupted).0;
    forall id | 0 <= id < |db.runs| ensures RunInv(db', id) {
      assert RunInv(db, id);
    }
  }

  lemma NextKeeps(db: Database, c: Call)
    requires Inv(db)
    ensures Inv(Next(db, c)) && Kept(db, Next(db, c))
  {
    match c
    case BeginCall(jobId, source, runType, startedAt, interrupted) =>
      BeginKeeps(db, jobId, source, runType, startedAt, interrupted);
    case AuditCall(handle, outcomes, interrupted) => AuditKeeps(db, handle, outcomes, interrupted);
    case FinalizeCall(handle, status, failed, completedAt, interrupted) =>
      FinalizeKeeps(db, handle, status, failed, completedAt, interrupted);
  }

  lemma KeptTwice(a: Database, b: Database, c: Database)
    requires Kept(a, b) && Kept(b, c)
    ensures Kept(a, c)
  {
    forall id | 0 <= id < |a.runs| && !a.runs[id].status.Running?
      ensures c.runs[id] == a.runs[id] && StatesOf(c.ledger, id) == StatesOf(a.ledger, id)
    {
      assert b.runs[id] == a.runs[id];
    }
  }

  /** The ledger is append-only and terminal runs are frozen, over every sequence of calls. */
  lemma {:induction false} LedgerIsAppendOnly(db: Database, calls: seq<Call>)
    requires Inv(db)
    ensures Inv(Perform(db, calls)) && Kept(db, Perform(db, calls))
    decreases |calls|
  {
    if calls != [] {
      NextKeeps(db, calls[0]);
      LedgerIsAppendOnly(Next(db, calls[0]), calls[1..]);
      KeptTwice(db, Next(db, calls[0]), Perform(db, calls));
    }
  }

  /**
   In every reachable database the counters of a terminal run satisfy the runner's
   accounting and equal the number of ledger rows of the run, by state; they still
   do after any further calls, since neither the run nor its rows can change. The
   runner keeps such counters as they are: it never replaces them by zeros, as long
   as the run's rows can be counted by a safe integer at all.
   */
  lemma FinalCountersMatchTheLedger(calls: seq<Call>, more: seq<Call>, id: nat)
    ensures var db, later := Perform(EMPTY, calls), Perform(Perform(EMPTY, calls), more);
            id < |db.runs| && !db.runs[id].status.Running? ==>
              && id < |later.runs| && later.runs[id] == db.runs[id]
              && var c := db.runs[id].counts;
                 var states := StatesOf(later.ledger, id);
                 && Accounted(c)
                 && c.fetched == |states|
                 && c.accepted == CountOf(states, Accepted)
                 && c.quarantined == CountOf(states, Quarantined)
                 && c.unknown == CountOf(states, Unknown)
                 && InCounterRange(c.failed)
                 && (db.runs[id].status.Completed? ==> c.failed == 0)
                 && (|states| <= MAX_SAFE_INTEGER ==> Runner.Usable(Supplied(c)) && Runner.Defaulted(Supplied(c)) == c)
  {
    var db := Perform(EMPTY, calls);
    LedgerIsAppendOnly(EMPTY, calls);
    LedgerIsAppendOnly(db, more);
    if id < |db.runs| && !db.runs[id].status.Running? {
      assert RunInv(db, id);
      CountsAddUp(StatesOf(db.ledger, id));
      if |StatesOf(db.ledger, id)| <= MAX_SAFE_INTEGER { CountersAreUsable(db.runs[id].counts); }
    }
  }

  /** A receipt's counters as a handler hands them to the runner. */
  function Supplied(c: Counters): CountersInput {
    CountersInput(Some(c.fetched), Some(c.accepted), Some(c.quarantined), Some(c.unknown), Some(c.persisted),
                  Some(c.failed))
  }

  lemma CountersAreUsable(c: Counters)
    requires WellFormed(c) && Accounted(c)
    ensures Runner.Usable(Supplied(c)) && Runner.Defaulted(Supplied(c)) == c
  {
    assert Runner.Defaulted(Supplied(c)) == c;
  }

  /** A terminal run accepts no more outcomes, and finalizing it again can only repeat its own answer. */
  lemma TerminalRunsRefuseWrites(db: Database, h: Handle, outcomes: seq<Outcome>, status: RunState, failed: int,
                                 completedAt: int)
    requires HandleMatches(db, h) && !db.runs[h.id].status.Running?
    ensures Audit(db, h, outcomes, false) == (db, RolledBack)
    ensures Finalize(db, h, status, failed, completedAt, false).0 == db
    ensures Finalize(db, h, status, failed, completedAt, false).1.Committed? ==>
              Finalize(db, h, status, failed, completedAt, false).1
              == Committed(FinalReceipt(db.runs[h.id].counts, db.runs[h.id].status))
  {
  }

  // ----- What each call does, row by row

  /** The handle names a run with all of its identity. */
  ghost predicate IsHandleOf(db: Database, h: Handle) {
    && h.id < |db.runs|
    && h == Handle(h.id, db.runs[h.id].jobId, db.runs[h.id].source, db.runs[h.id].runType)
  }

  /** The rows of a run with one state. */
  ghost function RowsWith(ledger: seq<Row>, run: nat, states: set<OutcomeState>): set<int> {
    set r | 0 <= r < |ledger| && ledger[r].run == run && ledger[r].state in states
  }

  /** Counters that count the run's rows, with the reported failures. */
  ghost predicate Counts(ledger: seq<Row>, run: nat, failed: int, c: Counters) {
    && c.accepted == |RowsWith(ledger, run, {Accepted})|
    && c.quarantined == |RowsWith(ledger, run, {Quarantined})|
    && c.unknown == |RowsWith(ledger, run, {Unknown})|
    && c.fetched == c.persisted == |RowsWith(ledger, run, {Accepted, Quarantined, Unknown})|
    && c.failed == failed
  }

  lemma {:induction false} StatesCountRows(ledger: seq<Row>, run: nat, s: OutcomeState)
    ensures CountOf(StatesOf(ledger, run), s) == |RowsWith(ledger, run, {s})|
    ensures |StatesOf(ledger, run)| == |RowsWith(ledger, run, {Accepted, Quarantined, Unknown})|
  {
    if ledger != [] {
      var init, last := ledger[..|ledger| - 1], ledger[|ledger| - 1];
      StatesCountRows(init, run, s);
      assert ledger == init + [last];
      StatesOfConcat(init, [last], run);
      assert [last][1..] == [];
      assert StatesOf([last], run) == if last.run == run then [last.state] else [];
      if last.run == run {
        CountOfAppend(StatesOf(init, run), last.state, s);
        assert last.state.Accepted? || last.state.Quarantined? || last.state.Unknown?;
      } else {
        assert StatesOf(init, run) + [] == StatesOf(init, run);
      }
      RowsWithLast(ledger, run, {s});
      RowsWithLast(ledger, run, {Accepted, Quarantined, Unknown});
    }
  }

  lemma RowsWithLast(ledger: seq<Row>, run: nat, states: set<OutcomeState>)
    requires ledger != []
    ensures var init, last := ledger[..|ledger| - 1], ledger[|ledger| - 1];
            |RowsWith(ledger, run, states)|
            == |RowsWith(init, run, states)| + if last.run == run && last.state in states then 1 else 0
  {
    var init, last := ledger[..|ledger| - 1], ledger[|ledger| - 1];
    var before, all := RowsWith(init, run, states), RowsWith(ledger, run, states);
    assert all == if last.run == run && last.state in states then before + {|init|} else before;
  }

  lemma ReconstructedCounts(ledger: seq<Row>, run: nat, failed: nat)
    ensures Counts(ledger, run, failed, Reconstruct(StatesOf(ledger, run), failed))
  {
    StatesCountRows(ledger, run, Accepted);
    StatesCountRows(ledger, run, Quarantined);
    StatesCountRows(ledger, run, Unknown);
  }

  /** When a finalize goes through. */
  ghost predicate CanFinalize(db: Database, h: Handle, status: RunState, failed: int, completedAt: int,
                              interrupted: bool) {
    && !interrupted && InCounterRange(failed) && !status.Running? && (status.Completed? ==> failed == 0)
    && IsHandleOf(db, h)
    && if db.runs[h.id].status.Running? then db.runs[h.id].startedAt <= completedAt else db.runs[h.id].status == status
  }

  /**
   A finalize goes through exactly when it may. It closes a running run with the status that was asked for and
   counters that count its rows and the reported failures, answers what it stored, and changes nothing else.
   */
  lemma FinalizeIsExact(db: Database, h: Handle, status: RunState, failed: int, completedAt: int, interrupted: bool)
    ensures var (db', r) := Finalize(db, h, status, failed, completedAt, interrupted);
            && (r.Committed? <==> CanFinalize(db, h, status, failed, completedAt, interrupted))
            && (r.RolledBack? ==> db' == db)
            && (r.Committed? ==>
                  var run, run' := db.runs[h.id], db'.runs[h.id];
                  && r.value == FinalReceipt(run'.counts, status)
                  && db' == db.(runs := db.runs[h.id := run'])
                  && run' == run.(status := status, counts := run'.counts)
                  && (run.status.Running? ==> Counts(db.ledger, h.id, failed, run'.counts))
                  && (!run.status.Running? ==> run' == run))
  {
    if h.id < |db.runs| && InCounterRange(failed) {
      ReconstructedCounts(db.ledger, h.id, failed);
    }
    hide Counts, Reconstruct, StatesOf;
  }

  /** A begin goes through exactly when the job has no run, or one of the same source and kind. */
  lemma BeginIsExact(db: Database, jobId: string, source: string, runType: string, startedAt: int, interrupted: bool)
    requires Inv(db)
    ensures var (db', r) := Begin(db, jobId, source, runType, startedAt, interrupted);
            && (r.Committed? <==>
                  && !interrupted
                  && forall i | 0 <= i < |db.runs| && db.runs[i].jobId == jobId ::
                       db.runs[i].source == source && db.runs[i].runType == runType)
            && (r.RolledBack? || !r.value.created ==> db' == db)
            && (r.Committed? ==>
                  && (r.value.created <==> forall i | 0 <= i < |db.runs| :: db.runs[i].jobId != jobId)
                  && IsHandleOf(db', r.value.handle) && r.value.handle.jobId == jobId
                  && r.value.status == db'.runs[r.value.handle.id].status
                  && (r.value.created ==>
                        && |db'.runs| == |db.runs| + 1 && db' == db.(runs := db.runs + [db'.runs[|db.runs|]])
                        && r.value.handle.id == |db.runs|
                        && var run := db'.runs[|db.runs|];
                           && run.status.Running? && run.startedAt == startedAt
                           && run.source == source && run.runType == runType
                           && Counts(db'.ledger, |db.runs|, 0, run.counts)))
  {
    var (db', r) := Begin(db, jobId, source, runType, startedAt, interrupted);
    var existing := FindJob(db.runs, jobId);
    if existing.Some? {
      forall i | 0 <= i < |db.runs| && db.runs[i].jobId == jobId ensures i == existing.value {
        OneRunPerJob(db, i, existing.value);
      }
    } else if r.Committed? {
      NoRowsOfNewRun(db.ledger, |db.runs|);
      ReconstructedCounts(db.ledger, |db.runs|, 0);
    }
    hide Inv, Counts;
  }

  lemma OneRunPerJob(db: Database, i: nat, j: nat)
    requires Inv(db) && i < |db.runs| && j < |db.runs| && db.runs[i].jobId == db.runs[j].jobId
    ensures i == j
  {
  }

  /** An audit goes through exactly when its run is running and its outcomes agree, and answers the rows it added. */
  lemma AuditIsExact(db: Database, h: Handle, outcomes: seq<Outcome>, interrupted: bool)
    requires Inv(db)
    ensures var (db', r) := Audit(db, h, outcomes, interrupted);
            && (r.Committed? <==>
                  && !interrupted && |outcomes| <= MAX_OUTCOMES && IsHandleOf(db, h)
                  && db.runs[h.id].status.Running? && Compatible(db.ledger, h.id, outcomes))
            && (r.RolledBack? ==> db' == db)
            && (r.Committed? ==>
                  && db'.runs == db.runs && db.ledger <= db'.ledger
                  && r.value == WriteReceipt(|db'.ledger| - |db.ledger|, |outcomes|)
                  && forall i | 0 <= i < |outcomes| ::
                       Find(db'.ledger, h.id, outcomes[i]).Some?
                       && Find(db'.ledger, h.id, outcomes[i]).value.hash == outcomes[i].hash)
  {
    AppendSucceedsIffCompatible(db.ledger, h.id, outcomes);
    var (db', r) := Audit(db, h, outcomes, interrupted);
    if r.Committed? {
      forall i | 0 <= i < |outcomes|
        ensures Find(db'.ledger, h.id, outcomes[i]).Some?
        ensures Find(db'.ledger, h.id, outcomes[i]).value.hash == outcomes[i].hash
      {
        AppendStoresAll(db.ledger, h.id, outcomes, i);
      }
    }
    hide Compatible, Inv, Find, Append;
  }

  lemma {:induction false} PerformPrefix(db: Database, calls: seq<Call>, k: nat)
    requires k < |calls|
    ensures Perform(db, calls[..k + 1]) == Next(Perform(db, calls[..k]), calls[k])
    decreases |calls|
  {
    hide Next;
    assert calls[..k + 1][0] == calls[0] && calls[..k + 1][1..] == calls[1..][..k];
    if k > 0 {
      PerformPrefix(Next(db, calls[0]), calls[1..], k - 1);
      assert calls[..k][0] == calls[0] && calls[..k][1..] == calls[1..][..k - 1];
    }
  }

  /**
   Every terminal run was closed by one call: while the run was running, with the status and the failures that
   the run has kept ever since.
   */
  lemma {:induction false} ClosedByItsCall(calls: seq<Call>, id: nat) returns (k: nat)
    requires var db := Perform(EMPTY, calls); id < |db.runs| && !db.runs[id].status.Running?
    ensures k < |calls| && calls[k].FinalizeCall? && calls[k].handle.id == id && !calls[k].interrupted
    ensures var run := Perform(EMPTY, calls).runs[id];
            run.status == calls[k].status && run.counts.failed == calls[k].failed
    ensures var before := Perform(EMPTY, calls[..k]); id < |before.runs| && before.runs[id].status.Running?
    decreases |calls|
  {
    var last := |calls| - 1;
    var init := calls[..last];
    PerformPrefix(EMPTY, calls, last);
    assert calls[..last + 1] == calls;
    LedgerIsAppendOnly(EMPTY, init);
    var before := Perform(EMPTY, init);
    NextKeeps(before, calls[last]);
    hide Inv, Perform;
    if id < |before.runs| && !before.runs[id].status.Running? {
      k := ClosedByItsCall(init, id);
      assert init[..k] == calls[..k];
    } else {
      k := last;
      OnlyFinalizeCloses(before, calls[last], id);
    }
  }

  lemma OnlyFinalizeCloses(db: Database, c: Call, id: nat)
    requires id < |db.runs| ==> db.runs[id].status.Running?
    requires id < |Next(db, c).runs| && !Next(db, c).runs[id].status.Running?
    ensures id < |db.runs| && c.FinalizeCall? && c.handle.id == id && !c.interrupted
    ensures Next(db, c).runs[id].status == c.status && Next(db, c).runs[id].counts.failed == c.failed
  {
    hide StatesOf, CountOf;
  }

  // ----- The repository object

  class LedgerRepository {
    var runs: seq<Run>
    var ledger: seq<Row>

    function Contents(): Database
      reads this
    {
      Database(runs, ledger)
    }

    constructor ()
      ensures Contents() == EMPTY
    {
      runs, ledger := [], [];
    }

    method BeginRun(jobId: string, source: string, runType: string, startedAt: int, interrupted: bool)
      returns (r: Result<BeginReceipt>)
      modifies this`runs
      ensures (Contents(), r) == Begin(old(Contents()), jobId, source, runType, startedAt, interrupted)
    {
      if interrupted {
        return RolledBack;
      }
      var existing := FindJob(runs, jobId);
      if existing.None? {
        var id := |runs|;
        runs := runs + [Run(jobId, source, runType, startedAt, Running, Reconstruct([], 0))];
        return Committed(BeginReceipt(true, Handle(id, jobId, source, runType), Running));
      }
      var run := runs[existing.value];
      if run.source != source || run.runType != runType {
        return RolledBack;
      }
      return Committed(BeginReceipt(false, Handle(existing.value, jobId, source, runType), run.status));
    }

    /** One insert, or one comparison with the stored row, per outcome; the first conflict rolls everything back. */
    method AuditOutcomes(h: Handle, outcomes: seq<Outcome>, interrupted: bool) returns (r: Result<WriteReceipt>)
      modifies this`ledger
      ensures (Contents(), r) == Audit(old(Contents()), h, outcomes, interrupted)
    {
      if interrupted || |outcomes| > MAX_OUTCOMES || !HandleMatches(Contents(), h) || !runs[h.id].status.Running? {
        return RolledBack;
      }
      var before := ledger;
      var inserted := 0;
      var i := 0;
      while i < |outcomes|
        invariant 0 <= i <= |outcomes|
        invariant before <= ledger && inserted == |ledger| - |before|
        invariant Append(before, h.id, outcomes) == Append(ledger, h.id, outcomes[i..])
      {
        var o := outcomes[i];
        assert outcomes[i..][0] == o && outcomes[i..][1..] == outcomes[i + 1..];
        if !o.valid {
          ledger := before;
          return RolledBack;
        }
        var existing := Find(ledger, h.id, o);
        if existing.None? {
          ledger := ledger + [Row(h.id, o.kind, o.recordId, o.state, o.hash)];
          inserted := inserted + 1;
        } else if existing.value.hash != o.hash {
          ledger := before;
          return RolledBack;
        }
        i := i + 1;
      }
      return Committed(WriteReceipt(inserted, |outcomes|));
    }

    method FinalizeRun(h: Handle, status: RunState, failed: int, completedAt: int, interrupted: bool)
      returns (r: Result<FinalReceipt>)
      modifies this`runs
      ensures Contents() == Finalize(old(Contents()), h, status, failed, completedAt, interrupted).0
      ensures r == Finalize(old(Contents()), h, status, failed, completedAt, interrupted).1
    {
      if interrupted || !InCounterRange(failed) || status.Running? || (status.Completed? && failed > 0)
        || !HandleMatches(Contents(), h) {
        return RolledBack;
      }
      var run := runs[h.id];
      if !run.status.Running? {
        return if run.status == status then Committed(FinalReceipt(run.counts, run.status)) else RolledBack;
      }
      if completedAt < run.startedAt {
        return RolledBack;
      }
      r := CloseRun(h.id, status, failed);
    }

    method CloseRun(id: nat, status: RunState, failed: nat) returns (r: Result<FinalReceipt>)
      requires id < |runs|
      modifies this`runs
      ensures Contents() == Close(old(Contents()), id, status, failed).0
      ensures r == Close(old(Contents()), id, status, failed).1
    {
      var counts := ReconstructCounters(StatesOf(ledger, id), failed);
      runs := runs[id := runs[id].(status := status, counts := counts)];
      return Committed(FinalReceipt(counts, status));
    }
  }
}
