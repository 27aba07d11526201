/**
 The lock protocol of the persistence transactions
 (packages/db/src/ingestion.ts): run row, source governance lock, then sorted
 unique GTIN locks, interleaved with governance changes that take the same
 source lock (packages/db/src/source-governance-lock.ts).

 One event is one statement of one transaction, or its rollback. A statement that
 waits for a lock held by another transaction changes nothing. Advisory-lock keys
 are assumed not to collide; source ids, run ids and GTINs are numbers.
 */
module IngestionLocks {
  import opened Wrappers

  datatype Lock = RunLock(run: nat) | GovernanceLock(source: nat) | GtinLock(gtin: nat)

  datatype OutcomeState = Accepted | Quarantined | Unknown

  /** One source record. `review` is what the canonical mutation decision will say of it. */
  datatype Outcome = Outcome(state: OutcomeState, gtin: Option<nat>, hasChain: bool, review: bool)

  datatype Capability = CatalogRights | OrdinaryPriceRights | PriceHistoryRights | PhysicalStoreRights

  /** A governance change leaves its source with exactly the given permissions. */
  datatype Kind = Catalog | Price(history: bool) | Stores | Govern(permissions: set<Capability>)

  datatype Pc =
    | TakeRun
    | Validate
    | TakeGovernance
    | Check
    | TakeGtins(next: nat)
    | Apply(next: nat)
    | Commit
    | Committed
    | Aborted

  /** `audit` is the ledger state written per outcome; `projected` the outcomes that reached product or price tables. */
  datatype Tx = Tx(kind: Kind, run: nat, source: nat, batch: seq<Outcome>, pc: Pc,
                   approved: bool, audit: seq<OutcomeState>, projected: seq<nat>)

  /** What one committed batch left behind, with the governance state of its source at that moment. */
  datatype CommitRecord = CommitRecord(tx: nat, approvedNow: bool, audit: seq<OutcomeState>, projected: seq<nat>)

  datatype State = State(
    owner: map<Lock, nat>,
    grants: map<nat, set<Capability>>,
    txs: seq<Tx>,
    log: seq<CommitRecord>)

  datatype Event = Moves(tx: nat) | Rollback(tx: nat)

  // ----- One transaction's program

  predicate Finished(tx: Tx) {
    tx.pc.Committed? || tx.pc.Aborted?
  }

  predicate HasAccepted(batch: seq<Outcome>) {
    exists i :: 0 <= i < |batch| && batch[i].state.Accepted?
  }

  /** The batch validation that runs before any governance lock. */
  predicate BatchValid(tx: Tx) {
    && |tx.batch| <= 1000
    && forall i | 0 <= i < |tx.batch| && tx.batch[i].state.Accepted? && !tx.kind.Stores? ::
         tx.batch[i].gtin.Some? && (tx.kind.Price? ==> tx.batch[i].hasChain)
  }

  /** A catalog batch without accepted records never asks for governance. */
  predicate NeedsGovernance(tx: Tx) {
    match tx.kind
    case Catalog => HasAccepted(tx.batch)
    case _ => true
  }

  /** Whether persisting this outcome resolves a product by GTIN. */
  predicate Resolves(kind: Kind, o: Outcome) {
    match kind
    case Catalog => o.state.Accepted? && o.gtin.Some?
    case Price(_) => o.hasChain && o.gtin.Some?
    case _ => false
  }

  /** Insertion into a strictly increasing sequence: `[...new Set(xs)].sort()` one element at a time. */
  function Insert(x: nat, xs: seq<nat>): seq<nat> {
    if xs == [] then [x]
    else if x < xs[0] then [x] + xs
    else if x == xs[0] then xs
    else [xs[0]] + Insert(x, xs[1..])
  }

  /** The GTIN lock list of a batch, in the order the locks are taken. */
  function Gtins(kind: Kind, batch: seq<Outcome>): seq<nat> {
    if batch == [] then []
    else if Resolves(kind, batch[0]) then Insert(batch[0].gtin.value, Gtins(kind, batch[1..]))
    else Gtins(kind, batch[1..])
  }

  /** The lock the next statement asks for. */
  function Wants(tx: Tx): Option<Lock> {
    match tx.pc
    case TakeRun => Some(RunLock(tx.run))
    case TakeGovernance => Some(GovernanceLock(tx.source))
    case Check => Some(GovernanceLock(tx.source))
    case TakeGtins(next) =>
      var gtins := Gtins(tx.kind, tx.batch);
      if next < |gtins| then Some(GtinLock(gtins[next])) else None
    case Apply(next) =>
      if next < |tx.batch| && tx.approved && Resolves(tx.kind, tx.batch[next])
      then Some(GtinLock(tx.batch[next].gtin.value)) else None
    case _ => None
  }

  /** The ledger state of one outcome, given the batch's access decision. */
  function CapabilityOf(kind: Kind): Option<Capability> {
    match kind
    case Catalog => Some(CatalogRights)
    case Price(history) => Some(if history then PriceHistoryRights else OrdinaryPriceRights)
    case Stores => Some(PhysicalStoreRights)
    case Govern(_) => None
  }

  /** The source holds the capability the batch needs. */
  predicate IsApproved(grants: map<nat, set<Capability>>, tx: Tx) {
    && tx.source in grants
    && CapabilityOf(tx.kind).Some? && CapabilityOf(tx.kind).value in grants[tx.source]
  }

  function AuditState(kind: Kind, approved: bool, o: Outcome): OutcomeState {
    if !o.state.Accepted? then o.state
    else if !approved then Quarantined
    else if kind.Catalog? && o.review then Quarantined
    else Accepted
  }

  /** Whether the outcome also reaches product, price or store tables. */
  predicate Projects(kind: Kind, approved: bool, o: Outcome) {
    approved && (AuditState(kind, approved, o).Accepted? || (kind.Price? && o.hasChain && o.gtin.Some?))
  }

  /** The statement itself, once its lock is granted. */
  function Advance(tx: Tx, approvedNow: bool): Tx {
    match tx.pc
    case TakeRun => tx.(pc := Validate)
    case Validate =>
      if !BatchValid(tx) then tx.(pc := Aborted)
      else if NeedsGovernance(tx) then tx.(pc := TakeGovernance)
      else tx.(pc := Apply(0), approved := false)
    case TakeGovernance => tx.(pc := if tx.kind.Govern? then Commit else Check)
    case Check => tx.(approved := approvedNow, pc := if approvedNow then TakeGtins(0) else Apply(0))
    case TakeGtins(next) =>
      if next < |Gtins(tx.kind, tx.batch)| then tx.(pc := TakeGtins(next + 1)) else tx.(pc := Apply(0))
    case Apply(next) =>
      if next >= |tx.batch| then tx.(pc := Commit)
      else
        var o := tx.batch[next];
        tx.(pc := Apply(next + 1),
            audit := tx.audit + [AuditState(tx.kind, tx.approved, o)],
            projected := if Projects(tx.kind, tx.approved, o) then tx.projected + [next] else tx.projected)
    case Commit => tx.(pc := Committed)
    case Committed => tx
    case Aborted => tx
  }

  // ----- The database

  predicate Granted(s: State, t: nat) {
    t < |s.txs| &&
    match Wants(s.txs[t])
    case None => true
    case Some(lock) => lock !in s.owner || s.owner[lock] == t
  }

  function ReleaseOf(owner: map<Lock, nat>, t: nat): map<Lock, nat> {
    map lock | lock in owner && owner[lock] != t :: owner[lock]
  }

  function Move(s: State, t: nat): State {
    if !Granted(s, t) || Finished(s.txs[t]) then s
    else
      var tx := s.txs[t];
      var tx' := Advance(tx, IsApproved(s.grants, tx));
      var owner := if Wants(tx).Some? then s.owner[Wants(tx).value := t] else s.owner;
      if tx.pc.Commit? then
        State(ReleaseOf(owner, t),
              match tx.kind
              case Govern(permissions) => s.grants[tx.source := permissions]
              case _ => s.grants,
              s.txs[t := tx'],
              if tx.kind.Govern? then s.log
              else s.log + [CommitRecord(t, IsApproved(s.grants, tx), tx.audit, tx.projected)])
      else State(if Finished(tx') then ReleaseOf(owner, t) else owner, s.grants, s.txs[t := tx'], s.log)
  }

  function Next(s: State, e: Event): State {
    match e
    case Moves(t) => Move(s, t)
    case Rollback(t) =>
      if t < |s.txs| && !Finished(s.txs[t])
      then s.(owner := ReleaseOf(s.owner, t), txs := s.txs[t := s.txs[t].(pc := Aborted)])
      else s
  }

  function Run(s: State, events: seq<Event>): State
    decreases |events|
  {
    if events == [] then s else Run(Next(s, events[0]), events[1..])
  }

  /** Fresh transactions: governance changes take no run row. */
  predicate Fresh(tx: Tx) {
    && tx.pc == (if tx.kind.Govern? then TakeGovernance else TakeRun)
    && !tx.approved && tx.audit == [] && tx.projected == []
  }

  ghost predicate Initial(s: State) {
    s.owner == map[] && s.log == [] && forall t | 0 <= t < |s.txs| :: Fresh(s.txs[t])
  }

  // ----- The GTIN lock list

  ghost predicate Increasing(xs: seq<nat>) {
    forall i, j | 0 <= i < j < |xs| :: xs[i] < xs[j]
  }

  lemma {:induction false} InsertHas(x: nat, xs: seq<nat>, y: nat)
    ensures y in Insert(x, xs) <==> y == x || y in xs
  {
    if xs != [] && x > xs[0] {
      var tail := Insert(x, xs[1..]);
      InsertHas(x, xs[1..], y);
      assert xs == [xs[0]] + xs[1..];
      assert y in [xs[0]] + tail <==> y == xs[0] || y in tail;
    }
  }

  lemma PutFirst(x: nat, xs: seq<nat>)
    requires Increasing(xs) && forall y | y in xs :: x < y
    ensures Increasing([x] + xs)
  {
    assert forall i | 0 <= i < |xs| :: xs[i] in xs;
  }

  lemma {:induction false} InsertSorts(x: nat, xs: seq<nat>)
    requires Increasing(xs)
    ensures Increasing(Insert(x, xs))
    ensures forall y :: y in Insert(x, xs) <==> y == x || y in xs
  {
    forall y ensures y in Insert(x, xs) <==> y == x || y in xs {
      InsertHas(x, xs, y);
    }
    if xs != [] && x < xs[0] {
      PutFirst(x, xs);
    } else if xs != [] && x > xs[0] {
      var rest := xs[1..];
      InsertSorts(x, rest);
      forall y | y in Insert(x, rest) ensures xs[0] < y {
        InsertHas(x, rest, y);
      }
      PutFirst(xs[0], Insert(x, rest));
    }
  }

  /** The locks taken are strictly increasing and are exactly the GTINs the batch will resolve. */
  lemma {:induction false} GtinsAreSortedAndComplete(kind: Kind, batch: seq<Outcome>)
    ensures Increasing(Gtins(kind, batch))
    ensures forall g :: g in Gtins(kind, batch) <==>
              exists i :: 0 <= i < |batch| && Resolves(kind, batch[i]) && batch[i].gtin == Some(g)
  {
    if batch != [] {
      GtinsAreSortedAndComplete(kind, batch[1..]);
      forall g
        ensures g in Gtins(kind, batch) <==>
                  exists i :: 0 <= i < |batch| && Resolves(kind, batch[i]) && batch[i].gtin == Some(g)
      {
        if Resolves(kind, batch[0]) {
          InsertSorts(batch[0].gtin.value, Gtins(kind, batch[1..]));
        }
        if i :| 0 <= i < |batch| && Resolves(kind, batch[i]) && batch[i].gtin == Some(g) {
          if i > 0 { assert batch[1..][i - 1] == batch[i]; }
        }
        if g in Gtins(kind, batch[1..]) {
          var i :| 0 <= i < |batch[1..]| && Resolves(kind, batch[1..][i]) && batch[1..][i].gtin == Some(g);
          assert batch[i + 1] == batch[1..][i];
        }
      }
      if Resolves(kind, batch[0]) {
        InsertSorts(batch[0].gtin.value, Gtins(kind, batch[1..]));
      }
    }
  }

  // ----- What a batch must leave behind

  function Audits(kind: Kind, approved: bool, batch: seq<Outcome>): (r: seq<OutcomeState>)
    ensures |r| == |batch|
    ensures forall i | 0 <= i < |r| :: r[i] == AuditState(kind, approved, batch[i])
  {
    seq(|batch|, i requires 0 <= i < |batch| => AuditState(kind, approved, batch[i]))
  }

  function Projections(kind: Kind, approved: bool, batch: seq<Outcome>, upTo: nat): seq<nat>
    requires upTo <= |batch|
  {
    if upTo == 0 then []
    else
      var before := Projections(kind, approved, batch, upTo - 1);
      if Projects(kind, approved, batch[upTo - 1]) then before + [upTo - 1] else before
  }

  // ----- The inductive invariant

  predicate Governed(pc: Pc) {
    pc.Check? || pc.TakeGtins? || pc.Apply? || pc.Commit?
  }

  /** The locks a transaction may hold at its program counter. */
  ghost predicate MayHold(tx: Tx, lock: Lock) {
    match lock
    case RunLock(run) => run == tx.run && !tx.pc.TakeRun? && !tx.kind.Govern?
    case GovernanceLock(source) => source == tx.source && Governed(tx.pc)
    case GtinLock(g) =>
      var gtins := Gtins(tx.kind, tx.batch);
      || (tx.pc.TakeGtins? && tx.pc.next <= |gtins| && g in gtins[..tx.pc.next])
      || ((tx.pc.Apply? || tx.pc.Commit?) && g in gtins)
  }

  ghost predicate OwnerInv(s: State) {
    forall lock | lock in s.owner ::
      s.owner[lock] < |s.txs| && !Finished(s.txs[s.owner[lock]]) && MayHold(s.txs[s.owner[lock]], lock)
  }

  ghost predicate Holds(owner: map<Lock, nat>, t: nat, lock: Lock) {
    lock in owner && owner[lock] == t
  }

  /** The locks a transaction must hold at its program counter. */
  ghost predicate HeldInv(owner: map<Lock, nat>, t: nat, tx: Tx) {
    && (Governed(tx.pc) && NeedsGovernance(tx) ==> Holds(owner, t, GovernanceLock(tx.source)))
    && (tx.pc.TakeGtins? ==>
          && tx.pc.next <= |Gtins(tx.kind, tx.batch)|
          && forall k | 0 <= k < tx.pc.next :: Holds(owner, t, GtinLock(Gtins(tx.kind, tx.batch)[k])))
    && ((tx.pc.Apply? || tx.pc.Commit?) && tx.approved ==>
          forall g | g in Gtins(tx.kind, tx.batch) :: Holds(owner, t, GtinLock(g)))
  }

  /** What validation demands: a bounded batch whose accepted records name their GTIN, and prices their chain. */
  ghost predicate IsAcceptable(tx: Tx) {
    && |tx.batch| <= 1000
    && (forall o | o in tx.batch && o.state.Accepted? ::
          && (tx.kind.Catalog? || tx.kind.Price? ==> o.gtin.Some?)
          && (tx.kind.Price? ==> o.hasChain))
  }

  lemma ValidIsAcceptable(tx: Tx)
    requires !tx.kind.Govern?
    ensures BatchValid(tx) <==> IsAcceptable(tx)
  {
  }

  ghost predicate WorkInv(grants: map<nat, set<Capability>>, tx: Tx) {
    && (tx.kind.Govern? ==> tx.pc.TakeGovernance? || tx.pc.Commit? || Finished(tx))
    && (!tx.kind.Govern? && (tx.pc.TakeGtins? || tx.pc.Apply? || tx.pc.Commit?) ==>
          tx.approved == (NeedsGovernance(tx) && IsApproved(grants, tx)))
    && (tx.kind.Govern? ==> !tx.approved)
    && (!tx.kind.Govern? && (tx.pc.TakeGovernance? || Governed(tx.pc) || tx.pc.Committed?) ==> IsAcceptable(tx))
    && (tx.pc.TakeGtins? ==> tx.approved)
    && (tx.pc.TakeGovernance? || tx.pc.Check? ==> NeedsGovernance(tx))
    && (!tx.kind.Govern?
        && (tx.pc.Check? || tx.pc.TakeGtins? || tx.pc.TakeGovernance? || tx.pc.Validate? || tx.pc.TakeRun?) ==>
          tx.audit == [] && tx.projected == [])
    && (tx.pc.Apply? ==>
          && tx.pc.next <= |tx.batch|
          && tx.audit == Audits(tx.kind, tx.approved, tx.batch[..tx.pc.next])
          && tx.projected == Projections(tx.kind, tx.approved, tx.batch, tx.pc.next))
    && (tx.pc.Commit? && !tx.kind.Govern? ==>
          && tx.audit == Audits(tx.kind, tx.approved, tx.batch)
          && tx.projected == Projections(tx.kind, tx.approved, tx.batch, |tx.batch|))
  }

  ghost predicate TxInv(s: State, t: nat)
    requires t < |s.txs|
  {
    HeldInv(s.owner, t, s.txs[t]) && WorkInv(s.grants, s.txs[t])
  }

  /** A committed batch is exactly what its governance state at commit allows. */
  ghost predicate RecordInv(s: State, r: CommitRecord) {
    && r.tx < |s.txs| && s.txs[r.tx].pc.Committed? && !s.txs[r.tx].kind.Govern?
    && var tx := s.txs[r.tx];
       var approved := NeedsGovernance(tx) && r.approvedNow;
       && r.audit == Audits(tx.kind, approved, tx.batch)
       && r.projected == Projections(tx.kind, approved, tx.batch, |tx.batch|)
  }

  ghost predicate Inv(s: State) {
    && OwnerInv(s)
    && (forall t | 0 <= t < |s.txs| :: TxInv(s, t))
    && (forall i | 0 <= i < |s.log| :: RecordInv(s, s.log[i]))
  }

  lemma InitialHolds(s: State)
    requires Initial(s)
    ensures Inv(s)
  {
  }

  /** The owner map after transaction t's statement was granted. */
  function Acquired(s: State, t: nat): map<Lock, nat>
    requires t < |s.txs|
  {
    if Wants(s.txs[t]).Some? then s.owner[Wants(s.txs[t]).value := t] else s.owner
  }

  lemma AdvanceKeepsOwn(s: State, t: nat)
    requires Inv(s) && Granted(s, t) && !Finished(s.txs[t]) && !s.txs[t].pc.Commit?
    ensures HeldInv(Acquired(s, t), t, Advance(s.txs[t], IsApproved(s.grants, s.txs[t])))
  {
    assert TxInv(s, t);
    GtinsAreSortedAndComplete(s.txs[t].kind, s.txs[t].batch);
  }

  lemma AdvanceKeepsWork(s: State, t: nat)
    requires Inv(s) && t < |s.txs| && !Finished(s.txs[t]) && !s.txs[t].pc.Commit?
    ensures WorkInv(s.grants, Advance(s.txs[t], IsApproved(s.grants, s.txs[t])))
  {
    var tx := s.txs[t];
    assert TxInv(s, t);
    if !tx.kind.Govern? { ValidIsAcceptable(tx); }
    hide IsAcceptable, BatchValid;
    assert Audits(tx.kind, true, tx.batch[..0]) == [] && Audits(tx.kind, false, tx.batch[..0]) == [];
    if tx.pc.Apply? {
      assert tx.batch[..|tx.batch|] == tx.batch;
      if tx.pc.next < |tx.batch| {
        assert tx.batch[..tx.pc.next + 1] == tx.batch[..tx.pc.next] + [tx.batch[tx.pc.next]];
        assert Audits(tx.kind, tx.approved, tx.batch[..tx.pc.next + 1])
            == Audits(tx.kind, tx.approved, tx.batch[..tx.pc.next])
              + [AuditState(tx.kind, tx.approved, tx.batch[tx.pc.next])];
      }
    }
  }

  /** What t holds after a granted statement is what its new program counter allows. */
  lemma AdvanceKeepsMayHold(s: State, t: nat, lock: Lock)
    requires Inv(s) && Granted(s, t) && !Finished(s.txs[t]) && !s.txs[t].pc.Commit?
    requires Holds(Acquired(s, t), t, lock)
    ensures var tx' := Advance(s.txs[t], IsApproved(s.grants, s.txs[t]));
            Finished(tx') || MayHold(tx', lock)
  {
    var tx := s.txs[t];
    assert TxInv(s, t);
    GtinsAreSortedAndComplete(tx.kind, tx.batch);
    var gtins := Gtins(tx.kind, tx.batch);
    if tx.pc.TakeGtins? {
      if tx.pc.next < |gtins| {
        assert gtins[..tx.pc.next + 1] == gtins[..tx.pc.next] + [gtins[tx.pc.next]];
      } else {
        assert gtins[..|gtins|] == gtins;
      }
    }
  }

  lemma OthersKeepTheirLocks(s: State, t: nat, u: nat)
    requires Inv(s) && Granted(s, t) && u < |s.txs| && u != t
    ensures HeldInv(Acquired(s, t), u, s.txs[u])
    ensures HeldInv(ReleaseOf(Acquired(s, t), t), u, s.txs[u])
    ensures HeldInv(ReleaseOf(s.owner, t), u, s.txs[u])
  {
    assert TxInv(s, u);
    assert forall lock | Holds(s.owner, u, lock) ::
      Holds(Acquired(s, t), u, lock) && Holds(ReleaseOf(Acquired(s, t), t), u, lock)
        && Holds(ReleaseOf(s.owner, t), u, lock);
  }

  /** A governance change commits only while no batch of its source is between its check and its commit. */
  lemma GovernanceIsExclusive(s: State, t: nat, u: nat)
    requires Inv(s) && t < |s.txs| && u < |s.txs| && u != t
    requires s.txs[t].kind.Govern? && s.txs[t].pc.Commit?
    requires Governed(s.txs[u].pc) && NeedsGovernance(s.txs[u])
    ensures s.txs[u].source != s.txs[t].source
  {
    assert TxInv(s, t) && TxInv(s, u);
  }

  lemma StatementKeeps(s: State, t: nat)
    requires Inv(s) && Granted(s, t) && !Finished(s.txs[t]) && !s.txs[t].pc.Commit?
    ensures Inv(Move(s, t))
  {
    var s' := Move(s, t);
    var tx' := s'.txs[t];
    AdvanceKeepsOwn(s, t);
    AdvanceKeepsWork(s, t);
    forall u | 0 <= u < |s.txs| ensures TxInv(s', u) {
      assert TxInv(s, u);
      if u != t { OthersKeepTheirLocks(s, t, u); }
    }
    forall lock | lock in s'.owner
      ensures s'.owner[lock] < |s'.txs| && !Finished(s'.txs[s'.owner[lock]]) && MayHold(s'.txs[s'.owner[lock]], lock)
    {
      if s'.owner[lock] == t { AdvanceKeepsMayHold(s, t, lock); }
    }
    forall i | 0 <= i < |s'.log| ensures RecordInv(s', s'.log[i]) {
      assert RecordInv(s, s.log[i]);
    }
  }

  lemma CommitKeeps(s: State, t: nat)
    requires Inv(s) && t < |s.txs| && s.txs[t].pc.Commit?
    ensures Inv(Move(s, t))
  {
    var s' := Move(s, t);
    var tx := s.txs[t];
    assert TxInv(s, t);
    forall u | 0 <= u < |s.txs| ensures TxInv(s', u) {
      assert TxInv(s, u);
      if u != t {
        OthersKeepTheirLocks(s, t, u);
        if tx.kind.Govern? && Governed(s.txs[u].pc) && NeedsGovernance(s.txs[u]) { GovernanceIsExclusive(s, t, u); }
      }
    }
    hide TxInv;
    forall i | 0 <= i < |s'.log| ensures RecordInv(s', s'.log[i]) {
      if i < |s.log| { assert RecordInv(s, s.log[i]); }
    }
  }

  lemma NextKeeps(s: State, e: Event)
    requires Inv(s)
    ensures Inv(Next(s, e))
  {
    var s' := Next(s, e);
    var t := e.tx;
    match e
    case Moves(_) =>
      if Granted(s, t) && !Finished(s.txs[t]) {
        if s.txs[t].pc.Commit? { CommitKeeps(s, t); } else { StatementKeeps(s, t); }
      }
    case Rollback(_) =>
      if t < |s.txs| && !Finished(s.txs[t]) {
        RollbackKeeps(s, t);
      }
  }

  lemma RollbackKeeps(s: State, t: nat)
    requires Inv(s) && t < |s.txs| && !Finished(s.txs[t])
    ensures Inv(Next(s, Rollback(t)))
  {
    var s' := Next(s, Rollback(t));
    assert TxInv(s, t);
    forall u | 0 <= u < |s.txs| ensures TxInv(s', u) {
      assert TxInv(s, u);
      assert forall lock | u != t && Holds(s.owner, u, lock) :: Holds(s'.owner, u, lock);
    }
    forall i | 0 <= i < |s'.log| ensures RecordInv(s', s'.log[i]) {
      assert RecordInv(s, s.log[i]);
    }
  }

  lemma {:induction false} RunKeeps(s: State, events: seq<Event>)
    requires Inv(s)
    ensures Inv(Run(s, events))
    decreases |events|
  {
    if events != [] {
      NextKeeps(s, events[0]);
      RunKeeps(Next(s, events[0]), events[1..]);
    }
  }

  // ----- No deadlock

  /** The position of a lock in the global order. */
  function Rank(lock: Lock): nat {
    match lock
    case RunLock(_) => 0
    case GovernanceLock(_) => 1
    case GtinLock(g) => 2 + g
  }

  function WantRank(tx: Tx): nat {
    if Wants(tx).Some? then Rank(Wants(tx).value) else 0
  }

  /** A transaction that must wait asks for a lock above every lock it already holds. */
  lemma WaitersAskUpwards(s: State, t: nat, lock: Lock)
    requires Inv(s) && t < |s.txs| && !Finished(s.txs[t]) && !Granted(s, t)
    requires Holds(s.owner, t, lock)
    ensures Rank(lock) < WantRank(s.txs[t])
  {
    var tx := s.txs[t];
    assert TxInv(s, t);
    GtinsAreSortedAndComplete(tx.kind, tx.batch);
    if tx.pc.TakeGtins? && lock.GtinLock? {
      var gtins := Gtins(tx.kind, tx.batch);
      var k :| 0 <= k < tx.pc.next && gtins[k] == lock.gtin;
    }
  }

  function Ceiling(txs: seq<Tx>): nat
  {
    if txs == [] then 0
    else
      var rest := Ceiling(txs[1..]);
      if WantRank(txs[0]) > rest then WantRank(txs[0]) else rest
  }

  lemma {:induction false} CeilingBounds(txs: seq<Tx>, t: nat)
    requires t < |txs|
    ensures WantRank(txs[t]) <= Ceiling(txs)
  {
    if t > 0 {
      assert txs[t] == txs[1..][t - 1];
      CeilingBounds(txs[1..], t - 1);
    }
  }

  /** Following lock owners upwards from a waiting transaction reaches one that can move. */
  lemma {:induction false} SomeoneCanMove(s: State, t: nat) returns (u: nat)
    requires Inv(s) && t < |s.txs| && !Finished(s.txs[t])
    ensures u < |s.txs| && !Finished(s.txs[u]) && Granted(s, u)
    decreases Ceiling(s.txs) - WantRank(s.txs[t])
  {
    if Granted(s, t) {
      u := t;
    } else {
      var lock := Wants(s.txs[t]).value;
      var owner := s.owner[lock];
      if Granted(s, owner) {
        u := owner;
      } else {
        WaitersAskUpwards(s, owner, lock);
        CeilingBounds(s.txs, owner);
        CeilingBounds(s.txs, t);
        u := SomeoneCanMove(s, owner);
      }
    }
  }

  /** Statements a transaction still has to run. */
  function Remaining(tx: Tx): nat {
    var gtins := |Gtins(tx.kind, tx.batch)|;
    match tx.pc
    case TakeRun => gtins + |tx.batch| + 8
    case Validate => gtins + |tx.batch| + 7
    case TakeGovernance => gtins + |tx.batch| + 6
    case Check => gtins + |tx.batch| + 5
    case TakeGtins(next) => (if next <= gtins then gtins - next else 0) + |tx.batch| + 4
    case Apply(next) => (if next <= |tx.batch| then |tx.batch| - next else 0) + 2
    case Commit => 1
    case Committed => 0
    case Aborted => 0
  }

  function Total(txs: seq<Tx>): nat {
    if txs == [] then 0 else Remaining(txs[0]) + Total(txs[1..])
  }

  lemma {:induction false} TotalDrops(txs: seq<Tx>, t: nat, tx: Tx)
    requires t < |txs| && Remaining(tx) < Remaining(txs[t])
    ensures Total(txs[t := tx]) < Total(txs)
  {
    if t == 0 {
      assert txs[t := tx][1..] == txs[1..];
    } else {
      assert txs[t := tx][1..] == txs[1..][t - 1 := tx];
      TotalDrops(txs[1..], t - 1, tx);
    }
  }

  lemma {:induction false} TotalZero(txs: seq<Tx>)
    ensures Total(txs) == 0 <==> forall t | 0 <= t < |txs| :: Finished(txs[t])
  {
    if txs != [] {
      TotalZero(txs[1..]);
      assert (forall t | 0 <= t < |txs| :: Finished(txs[t]))
               ==> Finished(txs[0]) && forall t | 0 <= t < |txs[1..]| :: Finished(txs[1..][t]);
      if forall t | 0 <= t < |txs[1..]| :: Finished(txs[1..][t]) {
        assert forall t | 1 <= t < |txs| :: txs[t] == txs[1..][t - 1];
      }
    }
  }

  lemma MoveMakesProgress(s: State, t: nat)
    requires Inv(s) && Granted(s, t) && !Finished(s.txs[t])
    ensures Total(Move(s, t).txs) < Total(s.txs)
  {
    assert TxInv(s, t);
    TotalDrops(s.txs, t, Advance(s.txs[t], IsApproved(s.grants, s.txs[t])));
  }

  /**
   No set of catalog, price, store and governance transactions deadlocks: in every
   reachable state with an unfinished transaction, some unfinished transaction is
   granted its next statement.
   */
  lemma NoDeadlock(s0: State, events: seq<Event>, t: nat)
    requires Initial(s0)
    ensures var s := Run(s0, events);
            t < |s.txs| && !Finished(s.txs[t]) ==>
              exists u :: 0 <= u < |s.txs| && !Finished(s.txs[u]) && Granted(s, u)
                && Total(Next(s, Moves(u)).txs) < Total(s.txs)
  {
    InitialHolds(s0);
    RunKeeps(s0, events);
    var s := Run(s0, events);
    if t < |s.txs| && !Finished(s.txs[t]) {
      var u := SomeoneCanMove(s, t);
      MoveMakesProgress(s, u);
    }
  }

  /** Hence every reachable state can be run to the end without a single rollback. */
  lemma {:induction false} AllCanFinish(s: State) returns (schedule: seq<Event>)
    requires Inv(s)
    ensures forall e | e in schedule :: e.Moves?
    ensures forall t | 0 <= t < |Run(s, schedule).txs| :: Finished(Run(s, schedule).txs[t])
    decreases Total(s.txs)
  {
    TotalZero(s.txs);
    if t :| 0 <= t < |s.txs| && !Finished(s.txs[t]) {
      var u := SomeoneCanMove(s, t);
      MoveMakesProgress(s, u);
      NextKeeps(s, Moves(u));
      var rest := AllCanFinish(Next(s, Moves(u)));
      schedule := [Moves(u)] + rest;
      assert schedule[1..] == rest;
    } else {
      schedule := [];
    }
  }

  // ----- Rights at commit

  lemma {:induction false} ProjectionsAre(kind: Kind, approved: bool, batch: seq<Outcome>, upTo: nat)
    requires upTo <= |batch|
    ensures var p := Projections(kind, approved, batch, upTo);
            && Increasing(p) && (forall x | x in p :: x < upTo)
            && (forall k | 0 <= k < upTo :: k in p <==> Projects(kind, approved, batch[k]))
  {
    if upTo > 0 {
      ProjectionsAre(kind, approved, batch, upTo - 1);
      var before := Projections(kind, approved, batch, upTo - 1);
      assert forall i | 0 <= i < |before| :: before[i] in before;
    }
  }

  /** What a batch wrote: an audit row per outcome, and the rows its rights allow, in order. */
  ghost predicate WroteByRights(tx: Tx, r: CommitRecord) {
    && |r.audit| == |tx.batch|
    && (forall k | 0 <= k < |tx.batch| ::
          var o := tx.batch[k];
          r.audit[k] == if o.state.Accepted? && (!r.approvedNow || (tx.kind.Catalog? && o.review)) then Quarantined
                        else o.state)
    && Increasing(r.projected) && (forall x | x in r.projected :: x < |tx.batch|)
    && (forall k | 0 <= k < |tx.batch| ::
          var o := tx.batch[k];
          k in r.projected <==>
            r.approvedNow && (r.audit[k].Accepted? || (tx.kind.Price? && o.hasChain && o.gtin.Some?)))
  }

  /**
   For every interleaving with governance changes: a committed batch wrote product,
   price or store rows exactly for the outcomes its source was approved for in the
   governance state at its commit; without approval it wrote audit rows alone, with every
   accepted outcome turned into a quarantined one and every other outcome unchanged.
   */
  lemma CommittedRowsHadRights(s0: State, events: seq<Event>, i: nat)
    requires Initial(s0)
    ensures var s := Run(s0, events);
            i < |s.log| ==>
              && s.log[i].tx < |s.txs| && WroteByRights(s.txs[s.log[i].tx], s.log[i])
              && (s.log[i].projected != [] ==> s.log[i].approvedNow)
  {
    InitialHolds(s0);
    RunKeeps(s0, events);
    var s := Run(s0, events);
    if i < |s.log| {
      var r := s.log[i];
      assert RecordInv(s, r);
      hide Inv;
      var tx := s.txs[r.tx];
      ProjectionsAre(tx.kind, NeedsGovernance(tx) && r.approvedNow, tx.batch, |tx.batch|);
      if !NeedsGovernance(tx) {
        assert forall k | 0 <= k < |tx.batch| :: !tx.batch[k].state.Accepted?;
      }
      assert r.projected != [] ==> r.projected[0] in r.projected;
    }
  }

  /** The right a batch needs, by its kind. */
  ghost predicate HasRight(grants: map<nat, set<Capability>>, tx: Tx) {
    && tx.source in grants
    && match tx.kind
       case Catalog => CatalogRights in grants[tx.source]
       case Price(history) => (if history then PriceHistoryRights else OrdinaryPriceRights) in grants[tx.source]
       case Stores => PhysicalStoreRights in grants[tx.source]
       case Govern(_) => false
  }

  /**
   One commit at a time: a batch's commit is logged with the rights of its source at that moment and changes no
   grant; a governance change sets the grants of its source and logs nothing; no other event does either.
   */
  lemma CommitsByKind(s: State, e: Event)
    ensures var s' := Next(s, e);
            var commits := e.Moves? && e.tx < |s.txs| && s.txs[e.tx].pc.Commit?;
            if !commits then s'.log == s.log && s'.grants == s.grants
            else if s.txs[e.tx].kind.Govern? then
              s'.log == s.log && s'.grants == s.grants[s.txs[e.tx].source := s.txs[e.tx].kind.permissions]
            else
              && s'.grants == s.grants
              && s'.log == s.log + [CommitRecord(e.tx, HasRight(s.grants, s.txs[e.tx]), s.txs[e.tx].audit,
                                                 s.txs[e.tx].projected)]
  {
  }

  /** Whenever a catalog or price outcome is about to reach a product, its transaction holds the lock of its GTIN. */
  lemma ProductsAreWrittenUnderTheirLock(s0: State, events: seq<Event>, t: nat)
    requires Initial(s0)
    ensures var s := Run(s0, events);
            t < |s.txs| && s.txs[t].pc.Apply? && s.txs[t].pc.next < |s.txs[t].batch| ==>
              var tx := s.txs[t];
              var o := tx.batch[tx.pc.next];
              tx.approved && o.gtin.Some? && ((tx.kind.Catalog? && o.state.Accepted?) || (tx.kind.Price? && o.hasChain))
              ==> Holds(s.owner, t, GtinLock(o.gtin.value))
  {
    InitialHolds(s0);
    RunKeeps(s0, events);
    var s := Run(s0, events);
    if t < |s.txs| && s.txs[t].pc.Apply? && s.txs[t].pc.next < |s.txs[t].batch| {
      assert TxInv(s, t);
      GtinsAreSortedAndComplete(s.txs[t].kind, s.txs[t].batch);
      hide Inv, WorkInv;
    }
  }

  /** Validation stops a batch exactly when it is not acceptable, so every committed batch was. */
  lemma ValidationIsExact(s0: State, events: seq<Event>, t: nat)
    requires Initial(s0)
    ensures var s := Run(s0, events);
            t < |s.txs| && !s.txs[t].kind.Govern? ==>
              && (s.txs[t].pc.Committed? ==> IsAcceptable(s.txs[t]))
              && (s.txs[t].pc.Validate? ==>
                    (Next(s, Moves(t)).txs[t].pc.Aborted? <==> !IsAcceptable(s.txs[t])))
  {
    InitialHolds(s0);
    RunKeeps(s0, events);
    var s := Run(s0, events);
    if t < |s.txs| && !s.txs[t].kind.Govern? {
      assert TxInv(s, t);
      ValidIsAcceptable(s.txs[t]);
      hide Inv, IsAcceptable, BatchValid, HeldInv;
    }
  }
}
