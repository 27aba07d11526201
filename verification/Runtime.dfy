/**
 The worker's lease and cycle protocol (apps/worker/src/runtime.ts together with
 the promise race of apps/worker/src/runner.ts).

 `Next` is a transition system: one event is one turn of the event loop, that is
 the code between two awaits, and the event carries what the awaited party
 answered. An event whose await point is not reached changes nothing, so every
 sequence of events is an interleaving of handler settlement, timeout, abort,
 grace expiry, lease loss and shutdown. `WorkerRuntime` is the imperative object,
 whose methods are those turns.
 */
module Runtime {
  import opened Wrappers

  type LeaseId = nat
  type HandlerId = nat

  /**
   The distinct source ids in text order are numbered 0 .. sourceCount - 1, which
   is the order leases are taken in; `schedules` lists each schedule's source.
   */
  datatype Config = Config(sourceCount: nat, schedules: seq<nat>) {
    predicate Valid() {
      forall k | 0 <= k < |schedules| :: schedules[k] < sourceCount
    }
  }

  datatype Status = Idle | Running | Draining | Stopped | Fatal

  datatype Shutdown = NotRequested | Waiting | Done

  /** `released` is a call of `release()` by the worker; `lost` is the lease's own abort signal. */
  datatype Lease = Lease(source: nat, cycle: nat, released: bool, lost: bool)

  datatype HandlerState = Pending | Active | Settled

  /** One handler execution; `aborted` is the run's abort controller. */
  datatype Handler = Handler(schedule: nat, cycle: nat, state: HandlerState, aborted: bool)

  /** One call of `recordResult`, with the lease whose fence it carries. */
  datatype RecordCall = RecordCall(schedule: nat, lease: LeaseId)

  /** The await point the current cycle is suspended at. */
  datatype Phase =
    | NoCycle
    | Acquire                       // acquire of the next source
    | Refuse(next: nat)             // a lease was refused: releasing one by one
    | Cleanup(next: nat)            // acquisition threw: releasing one by one, errors ignored
    | Lookup(schedule: nat)         // getLastScheduledAt
    | Race(schedule: nat, handler: HandlerId)   // settled, timeout or cancellation
    | Join(schedule: nat, handler: HandlerId)   // aborted, waiting out the grace period
    | Record(schedule: nat)         // recordResult
    | Drain(failed: bool)           // all releases requested
    | Exiting(failed: bool)         // executeCycle is over, runCycle's continuation is not

  /**
   `leases` and `handlers` keep every lease ever acquired and every handler ever
   launched. The running cycle's lease map is `leases[base..]`, in source order.
   */
  datatype State = State(
    status: Status,
    exitCode: nat,
    aborted: bool,
    activeCycle: bool,
    shutdown: Shutdown,
    phase: Phase,
    cycle: nat,
    base: nat,
    leases: seq<Lease>,
    handlers: seq<Handler>,
    records: seq<RecordCall>,
    stuck: Option<nat>)

  const INITIAL: State :=
    State(Idle, 0, false, false, NotRequested, NoCycle, 0, 0, [], [], [], None)

  /** What follows a successful schedule lookup. */
  datatype Verdict = NotDue | Unrunnable | NoHandler | Launch

  datatype Event =
    | RunCycle
    | LeaseGranted | LeaseRefused | AcquireThrew
    | PartialReleased | PartialReleaseThrew
    | CleanupReleased
    | LookupReturned(verdict: Verdict) | LookupThrew
    | HandlerStarted(handler: HandlerId) | HandlerSettled(handler: HandlerId)
    | TimeoutFired | CallerAborted
    | OutcomeJoined(finishes: bool) | GraceExpired
    | RecordReturned | RecordThrew
    | DrainSettled | CycleSettled
    | LeaseLost(lease: LeaseId)
    | ShutdownRequested | ShutdownSawCycleEnd | ShutdownTimedOut

  /** The composite work signal: shutdown, or loss of any lease of this cycle. */
  predicate WorkAborted(s: State) {
    s.aborted || exists l :: s.base <= l < |s.leases| && s.leases[l].lost
  }

  /** `release()` on the lease at index l. */
  function ReleaseOne(leases: seq<Lease>, l: LeaseId): seq<Lease> {
    if l < |leases| then leases[l := leases[l].(released := true)] else leases
  }

  function ReleaseFrom(leases: seq<Lease>, base: nat): (r: seq<Lease>)
    ensures |r| == |leases|
    ensures forall l | 0 <= l < |r| :: r[l] == (if base <= l then leases[l].(released := true) else leases[l])
  {
    seq(|leases|, l requires 0 <= l < |leases| => if base <= l then leases[l].(released := true) else leases[l])
  }

  /** Leaving the work loop: every lease of the cycle is asked to release. */
  function LeaveWork(s: State, failed: bool): State {
    s.(leases := ReleaseFrom(s.leases, s.base), phase := Drain(failed))
  }

  /** The head of the work loop. */
  function Advance(cfg: Config, s: State, k: nat): State {
    if k >= |cfg.schedules| || WorkAborted(s) then LeaveWork(s, false) else s.(phase := Lookup(k))
  }

  /** `results.push(result)` and what follows it. */
  function AfterRun(cfg: Config, s: State, k: nat): State {
    if k >= |cfg.schedules| then s
    else
      var l := s.base + cfg.schedules[k];
      if l < |s.leases| && s.leases[l].lost then LeaveWork(s, false)
      else s.(phase := Record(k), records := s.records + [RecordCall(k, l)])
  }

  function StartCycle(cfg: Config, s: State): State {
    if s.status.Draining? || s.status.Stopped? || s.status.Fatal? || s.activeCycle then s
    else
      var begun := s.(status := Running, activeCycle := true, cycle := s.cycle + 1, base := |s.leases|);
      if cfg.sourceCount == 0 then Advance(cfg, begun, 0) else begun.(phase := Acquire)
  }

  function Granted(cfg: Config, s: State): State {
    if !s.phase.Acquire? || s.base > |s.leases| then s
    else
      var acquired := |s.leases| - s.base;
      var s1 := s.(leases := s.leases + [Lease(acquired, s.cycle, false, false)]);
      if acquired + 1 < cfg.sourceCount then s1 else Advance(cfg, s1, 0)
  }

  /** Releases the next already-acquired lease of a refused acquisition, or leaves the cycle. */
  function RefuseStep(s: State, threw: bool): State {
    if !s.phase.Refuse? then s
    else if s.base + s.phase.next < |s.leases| then
      s.(leases := ReleaseOne(s.leases, s.base + s.phase.next),
         phase := if threw then Cleanup(0) else Refuse(s.phase.next + 1))
    else s.(phase := Exiting(false))
  }

  function CleanupStep(s: State): State {
    if !s.phase.Cleanup? then s
    else if s.base + s.phase.next < |s.leases| then
      s.(leases := ReleaseOne(s.leases, s.base + s.phase.next), phase := Cleanup(s.phase.next + 1))
    else s.(phase := Exiting(!s.aborted))
  }

  function AfterLookup(cfg: Config, s: State, verdict: Verdict): State {
    if !s.phase.Lookup? then s
    else if WorkAborted(s) then LeaveWork(s, false)
    else match verdict
      case NotDue => Advance(cfg, s, s.phase.schedule + 1)
      case Unrunnable => LeaveWork(s, true)
      case NoHandler => AfterRun(cfg, s, s.phase.schedule)
      case Launch =>
        s.(handlers := s.handlers + [Handler(s.phase.schedule, s.cycle, Pending, false)],
           phase := Race(s.phase.schedule, |s.handlers|))
  }

  function LookupFailed(s: State): State {
    if s.phase.Lookup? then LeaveWork(s, !WorkAborted(s)) else s
  }

  /** The deferred start checks the abort signal once more before it calls the handler. */
  function StartHandler(s: State, h: HandlerId): State {
    if h < |s.handlers| && s.handlers[h].state.Pending? then
      s.(handlers := s.handlers[h := s.handlers[h].(state := if s.handlers[h].aborted then Settled else Active)])
    else s
  }

  function SettleHandler(s: State, h: HandlerId): State {
    if h < |s.handlers| && s.handlers[h].state.Active? then
      s.(handlers := s.handlers[h := s.handlers[h].(state := Settled)])
    else s
  }

  function AbortRun(s: State): State {
    if s.phase.Race? && s.phase.handler < |s.handlers| then
      s.(handlers := s.handlers[s.phase.handler := s.handlers[s.phase.handler].(aborted := true)],
         phase := Join(s.phase.schedule, s.phase.handler))
    else s
  }

  /** The race or the join saw the settlement; building the result may still throw. */
  function Joined(cfg: Config, s: State, finishes: bool): State {
    if (s.phase.Race? || s.phase.Join?) && s.phase.handler < |s.handlers|
       && s.handlers[s.phase.handler].state.Settled?
    then if finishes then AfterRun(cfg, s, s.phase.schedule) else LeaveWork(s, true)
    else s
  }

  /** The handler did not stop: the cycle fails and no lease is given back. */
  function GiveUp(s: State): State {
    if s.phase.Join? && s.phase.handler < |s.handlers| && !s.handlers[s.phase.handler].state.Settled?
    then s.(phase := Exiting(true), stuck := Some(s.cycle))
    else s
  }

  function MarkFatal(s: State): State {
    s.(exitCode := 1, status := Fatal, aborted := true)
  }

  function EndCycle(s: State): State {
    if !s.phase.Exiting? then s
    else
      var s1 := if s.phase.failed then MarkFatal(s) else s;
      s1.(activeCycle := false, phase := NoCycle, base := |s1.leases|,
          status := if s1.status.Running? then Idle else s1.status)
  }

  function LoseLease(s: State, l: LeaseId): State {
    if l < |s.leases| then s.(leases := s.leases[l := s.leases[l].(lost := true)]) else s
  }

  function AskShutdown(s: State): State {
    if !s.shutdown.NotRequested? then s
    else if s.status.Fatal? || s.status.Stopped? then s.(shutdown := Done)
    else
      var s1 := s.(status := Draining, aborted := true);
      if s1.activeCycle then s1.(shutdown := Waiting) else s1.(shutdown := Done, status := Stopped)
  }

  function ShutdownOver(s: State, timedOut: bool): State {
    if !s.shutdown.Waiting? then s
    else if timedOut then if s.activeCycle then MarkFatal(s.(shutdown := Done)) else s
    else if s.activeCycle then s
    else s.(shutdown := Done, status := if s.status.Fatal? then Fatal else Stopped)
  }

  function Next(cfg: Config, s: State, e: Event): State {
    match e
    case RunCycle => StartCycle(cfg, s)
    case LeaseGranted => Granted(cfg, s)
    case LeaseRefused => if s.phase.Acquire? then s.(phase := Refuse(0)) else s
    case AcquireThrew => if s.phase.Acquire? then s.(phase := Cleanup(0)) else s
    case PartialReleased => RefuseStep(s, false)
    case PartialReleaseThrew => RefuseStep(s, true)
    case CleanupReleased => CleanupStep(s)
    case LookupReturned(verdict) => AfterLookup(cfg, s, verdict)
    case LookupThrew => LookupFailed(s)
    case HandlerStarted(h) => StartHandler(s, h)
    case HandlerSettled(h) => SettleHandler(s, h)
    case TimeoutFired => AbortRun(s)
    case CallerAborted => if WorkAborted(s) then AbortRun(s) else s
    case OutcomeJoined(finishes) => Joined(cfg, s, finishes)
    case GraceExpired => GiveUp(s)
    case RecordReturned => if s.phase.Record? then Advance(cfg, s, s.phase.schedule + 1) else s
    case RecordThrew => if s.phase.Record? then LeaveWork(s, true) else s
    case DrainSettled => if s.phase.Drain? then s.(phase := Exiting(s.phase.failed)) else s
    case CycleSettled => EndCycle(s)
    case LeaseLost(l) => LoseLease(s, l)
    case ShutdownRequested => AskShutdown(s)
    case ShutdownSawCycleEnd => ShutdownOver(s, false)
    case ShutdownTimedOut => ShutdownOver(s, true)
  }

  function Run(cfg: Config, s: State, events: seq<Event>): State
    decreases |events|
  {
    if events == [] then s else Run(cfg, Next(cfg, s, events[0]), events[1..])
  }

  // ----- The inductive invariant

  /** Phases in which no lease of the cycle may have been given back yet. */
  predicate Working(p: Phase) {
    p.Lookup? || p.Race? || p.Join? || p.Record?
  }

  ghost predicate StatusInv(s: State) {
    && (s.exitCode == if s.status.Fatal? then 1 else 0)
    && (s.status.Draining? || s.status.Stopped? || s.status.Fatal? ==> s.aborted)
    && (s.activeCycle <==> !s.phase.NoCycle?)
    && (s.status.Idle? || s.status.Stopped? ==> !s.activeCycle)
    && (s.status.Running? ==> s.activeCycle)
    && (s.shutdown.Waiting? ==> s.status.Draining? || s.status.Fatal?)
    && (s.shutdown.Done? ==> s.status.Stopped? || s.status.Fatal?)
    && (s.status.Draining? ==> s.shutdown.Waiting?)
  }

  /** The leases from `base` on are those of the running cycle, one per source in order. */
  ghost predicate LeaseInv(cfg: Config, s: State) {
    && s.base <= |s.leases|
    && (forall l | 0 <= l < s.base :: s.leases[l].cycle < s.cycle || (s.phase.NoCycle? && s.leases[l].cycle == s.cycle))
    && (forall l | s.base <= l < |s.leases| :: s.leases[l].cycle == s.cycle && s.leases[l].source == l - s.base)
    && (s.phase.NoCycle? ==> s.base == |s.leases|)
    && (s.phase.Acquire? ==> |s.leases| - s.base < cfg.sourceCount)
    && (Working(s.phase) ==> s.phase.schedule < |cfg.schedules| && |s.leases| - s.base == cfg.sourceCount)
    && (s.phase.Refuse? || s.phase.Cleanup? ==> s.phase.next <= |s.leases| - s.base)
  }

  /** How far into the running cycle's leases `release()` must have been called. */
  function ReleasedUpTo(s: State): int {
    match s.phase
    case Refuse(next) => s.base + next
    case Cleanup(next) => s.base + next
    case Drain(_) => |s.leases|
    case Exiting(_) => if s.stuck.None? then |s.leases| else s.base
    case _ => s.base
  }

  ghost predicate ReleaseInv(s: State) {
    && (s.stuck.None? ==> forall l | 0 <= l < |s.leases| && l < ReleasedUpTo(s) :: s.leases[l].released)
    && (s.phase.Acquire? || Working(s.phase) ==> forall l | s.base <= l < |s.leases| :: !s.leases[l].released)
    && (s.stuck.Some? ==>
          && s.stuck.value == s.cycle
          && (s.phase == Exiting(true) || (s.phase.NoCycle? && s.status.Fatal?))
          && forall l | 0 <= l < |s.leases| :: s.leases[l].released <==> s.leases[l].cycle < s.cycle)
  }

  /** Only the raced or joined handler, or the abandoned one, may be unsettled. */
  ghost predicate HandlerInv(s: State) {
    && (s.phase.Race? || s.phase.Join? ==>
          s.phase.handler < |s.handlers| && s.handlers[s.phase.handler].cycle == s.cycle
          && s.handlers[s.phase.handler].schedule == s.phase.schedule)
    && (forall h | 0 <= h < |s.handlers| && !s.handlers[h].state.Settled? ::
          && s.handlers[h].cycle == s.cycle
          && (((s.phase.Race? || s.phase.Join?) && s.phase.handler == h) || s.stuck == Some(s.cycle)))
  }

  ghost predicate RecordInv(cfg: Config, s: State) {
    forall r | 0 <= r < |s.records| ::
      && s.records[r].schedule < |cfg.schedules|
      && s.records[r].lease < |s.leases|
      && s.leases[s.records[r].lease].source == cfg.schedules[s.records[r].schedule]
  }

  ghost predicate Inv(cfg: Config, s: State) {
    StatusInv(s) && LeaseInv(cfg, s) && ReleaseInv(s) && HandlerInv(s) && RecordInv(cfg, s)
  }

  lemma InitialHolds(cfg: Config)
    ensures Inv(cfg, INITIAL)
  {
  }

  /** Past leases released, nothing running: the cycle may hand its leases back. */
  ghost predicate Releasable(s: State) {
    && s.stuck.None?
    && (forall h | 0 <= h < |s.handlers| :: s.handlers[h].state.Settled?)
    && (forall l | 0 <= l < |s.leases| && l < s.base :: s.leases[l].released)
  }

  lemma LeaveWorkKeeps(cfg: Config, s: State, failed: bool)
    requires Inv(cfg, s) && s.activeCycle && Releasable(s)
    ensures Inv(cfg, LeaveWork(s, failed))
  {
  }

  lemma AdvanceKeeps(cfg: Config, s: State, k: nat)
    requires cfg.Valid() && Inv(cfg, s) && s.activeCycle && Releasable(s)
    requires |s.leases| - s.base == cfg.sourceCount
    requires forall l | s.base <= l < |s.leases| :: !s.leases[l].released
    ensures Inv(cfg, Advance(cfg, s, k))
  {
    LeaveWorkKeeps(cfg, s, false);
  }

  lemma AfterRunKeeps(cfg: Config, s: State)
    requires cfg.Valid() && Inv(cfg, s) && Working(s.phase) && Releasable(s)
    ensures Inv(cfg, AfterRun(cfg, s, s.phase.schedule))
  {
    LeaveWorkKeeps(cfg, s, false);
  }

  lemma StartCycleKeeps(cfg: Config, s: State)
    requires cfg.Valid() && Inv(cfg, s)
    ensures Inv(cfg, StartCycle(cfg, s))
  {
  }

  lemma GrantedKeeps(cfg: Config, s: State)
    requires cfg.Valid() && Inv(cfg, s)
    ensures Inv(cfg, Granted(cfg, s))
  {
    hide Inv, Advance, Releasable;
    if s.phase.Acquire? {
      LeasesAreWanted(cfg, s);
      var acquired := |s.leases| - s.base;
      var p := if acquired + 1 == cfg.sourceCount then Cleanup(0) else Acquire;
      var s1 := s.(leases := s.leases + [Lease(acquired, s.cycle, false, false)], phase := p);
      GrantKeeps(cfg, s, p);
      if acquired + 1 == cfg.sourceCount {
        AdvanceKeeps(cfg, s1, 0);
        AdvanceIgnoresThePhase(cfg, s1, Acquire);
        assert Granted(cfg, s) == Advance(cfg, s1.(phase := Acquire), 0);
      } else {
        assert Granted(cfg, s) == s1;
      }
    }
  }

  lemma LeasesAreWanted(cfg: Config, s: State)
    requires Inv(cfg, s) && s.phase.Acquire?
    ensures s.base <= |s.leases| && |s.leases| - s.base < cfg.sourceCount
  {
  }

  lemma AdvanceIgnoresThePhase(cfg: Config, s: State, p: Phase)
    ensures Advance(cfg, s.(phase := p), 0) == Advance(cfg, s, 0)
  {
    assert WorkAborted(s.(phase := p)) == WorkAborted(s);
  }

  lemma GrantKeeps(cfg: Config, s: State, p: Phase)
    requires cfg.Valid() && Inv(cfg, s) && s.phase.Acquire?
    requires p == if |s.leases| - s.base + 1 == cfg.sourceCount then Cleanup(0) else Acquire
    ensures var s1 := s.(leases := s.leases + [Lease(|s.leases| - s.base, s.cycle, false, false)], phase := p);
            && Inv(cfg, s1)
            && (p.Cleanup? ==>
                  && Releasable(s1) && s1.activeCycle && |s1.leases| - s1.base == cfg.sourceCount
                  && forall l | s1.base <= l < |s1.leases| :: !s1.leases[l].released)
  {
  }

  lemma RefuseStepKeeps(cfg: Config, s: State, threw: bool)
    requires cfg.Valid() && Inv(cfg, s)
    ensures Inv(cfg, RefuseStep(s, threw))
  {
    if s.phase.Refuse? && s.base + s.phase.next < |s.leases| {
      hide Inv, ReleaseOne;
      ReleaseOneKeeps(cfg, s, if threw then Cleanup(0) else Refuse(s.phase.next + 1));
    } else if s.phase.Refuse? {
      hide Inv;
      ReleasedAllKeeps(cfg, s, false);
    }
  }

  lemma CleanupStepKeeps(cfg: Config, s: State)
    requires cfg.Valid() && Inv(cfg, s)
    ensures Inv(cfg, CleanupStep(s))
  {
    if s.phase.Cleanup? && s.base + s.phase.next < |s.leases| {
      hide Inv, ReleaseOne;
      ReleaseOneKeeps(cfg, s, Cleanup(s.phase.next + 1));
    } else if s.phase.Cleanup? {
      hide Inv;
      ReleasedAllKeeps(cfg, s, !s.aborted);
    }
  }

  lemma ReleasedAllKeeps(cfg: Config, s: State, failed: bool)
    requires Inv(cfg, s) && (s.phase.Refuse? || s.phase.Cleanup?) && s.base + s.phase.next >= |s.leases|
    ensures Inv(cfg, s.(phase := Exiting(failed)))
  {
  }

  lemma ReleaseOneKeeps(cfg: Config, s: State, p: Phase)
    requires cfg.Valid() && Inv(cfg, s)
    requires s.phase.Refuse? || s.phase.Cleanup?
    requires s.base + s.phase.next < |s.leases|
    requires p == Refuse(s.phase.next + 1) || p == Cleanup(s.phase.next + 1) || p == Cleanup(0)
    ensures Inv(cfg, s.(leases := ReleaseOne(s.leases, s.base + s.phase.next), phase := p))
  {
  }

  lemma AfterLookupKeeps(cfg: Config, s: State, verdict: Verdict)
    requires cfg.Valid() && Inv(cfg, s)
    ensures Inv(cfg, AfterLookup(cfg, s, verdict)) && Inv(cfg, LookupFailed(s))
  {
    if s.phase.Lookup? {
      LookupIsReleasable(cfg, s);
      hide Inv, Advance, LeaveWork, AfterRun, WorkAborted, Releasable;
      LeaveWorkKeeps(cfg, s, false);
      LeaveWorkKeeps(cfg, s, true);
      AdvanceKeeps(cfg, s, s.phase.schedule + 1);
      AfterRunKeeps(cfg, s);
      LaunchKeeps(cfg, s);
    }
  }

  lemma LookupIsReleasable(cfg: Config, s: State)
    requires Inv(cfg, s) && s.phase.Lookup?
    ensures Releasable(s) && s.activeCycle && |s.leases| - s.base == cfg.sourceCount
    ensures forall l | s.base <= l < |s.leases| :: !s.leases[l].released
  {
    hide RecordInv;
  }

  lemma LaunchKeeps(cfg: Config, s: State)
    requires Inv(cfg, s) && s.phase.Lookup?
    ensures Inv(cfg, s.(handlers := s.handlers + [Handler(s.phase.schedule, s.cycle, Pending, false)],
                        phase := Race(s.phase.schedule, |s.handlers|)))
  {
  }

  lemma StartHandlerKeeps(cfg: Config, s: State, h: HandlerId)
    requires cfg.Valid() && Inv(cfg, s)
    ensures Inv(cfg, StartHandler(s, h))
  {
  }

  lemma SettleHandlerKeeps(cfg: Config, s: State, h: HandlerId)
    requires cfg.Valid() && Inv(cfg, s)
    ensures Inv(cfg, SettleHandler(s, h))
  {
  }

  lemma RaceTurnsKeep(cfg: Config, s: State)
    requires cfg.Valid() && Inv(cfg, s)
    ensures Inv(cfg, AbortRun(s)) && Inv(cfg, GiveUp(s))
  {
  }

  lemma JoinedKeeps(cfg: Config, s: State, finishes: bool)
    requires cfg.Valid() && Inv(cfg, s)
    ensures Inv(cfg, Joined(cfg, s, finishes))
  {
    if (s.phase.Race? || s.phase.Join?) && s.handlers[s.phase.handler].state.Settled? {
      LeaveWorkKeeps(cfg, s, true);
      AfterRunKeeps(cfg, s);
    }
  }

  lemma EndCycleKeeps(cfg: Config, s: State)
    requires cfg.Valid() && Inv(cfg, s)
    ensures Inv(cfg, EndCycle(s))
  {
  }

  lemma LoseLeaseKeeps(cfg: Config, s: State, l: LeaseId)
    requires cfg.Valid() && Inv(cfg, s)
    ensures Inv(cfg, LoseLease(s, l))
  {
  }

  /** Leases, handlers and records do not depend on the status, except that an abandoned cycle ends fatal. */
  lemma StatusTurnKeeps(cfg: Config, s: State, s': State)
    requires Inv(cfg, s) && StatusInv(s')
    requires s' == s.(status := s'.status, exitCode := s'.exitCode, aborted := s'.aborted, shutdown := s'.shutdown)
    requires s.status.Fatal? ==> s'.status.Fatal?
    ensures Inv(cfg, s')
  {
    hide StatusInv;
  }

  lemma ShutdownKeeps(cfg: Config, s: State, timedOut: bool)
    requires cfg.Valid() && Inv(cfg, s)
    ensures Inv(cfg, AskShutdown(s)) && Inv(cfg, ShutdownOver(s, timedOut))
  {
    hide LeaseInv, ReleaseInv, HandlerInv, RecordInv;
    StatusTurnKeeps(cfg, s, AskShutdown(s));
    StatusTurnKeeps(cfg, s, ShutdownOver(s, timedOut));
  }

  lemma RecordTurnsKeep(cfg: Config, s: State)
    requires cfg.Valid() && Inv(cfg, s) && s.phase.Record?
    ensures Inv(cfg, Advance(cfg, s, s.phase.schedule + 1)) && Inv(cfg, LeaveWork(s, true))
  {
    AdvanceKeeps(cfg, s, s.phase.schedule + 1);
    LeaveWorkKeeps(cfg, s, true);
  }

  lemma PhaseTurnsKeep(cfg: Config, s: State)
    requires cfg.Valid() && Inv(cfg, s)
    ensures s.phase.Acquire? ==> Inv(cfg, s.(phase := Refuse(0))) && Inv(cfg, s.(phase := Cleanup(0)))
    ensures s.phase.Drain? ==> Inv(cfg, s.(phase := Exiting(s.phase.failed)))
  {
  }

  /** Steps of the acquisition and lookup phases. */
  lemma AcquisitionKeeps(cfg: Config, s: State, e: Event)
    requires cfg.Valid() && Inv(cfg, s)
    requires e.RunCycle? || e.LeaseGranted? || e.LeaseRefused? || e.AcquireThrew? || e.PartialReleased?
             || e.PartialReleaseThrew? || e.CleanupReleased? || e.LookupReturned? || e.LookupThrew?
    ensures Inv(cfg, Next(cfg, s, e))
  {
    hide Inv, StartCycle, Granted, RefuseStep, CleanupStep, AfterLookup, LookupFailed;
    match e
    case RunCycle => StartCycleKeeps(cfg, s);
    case LeaseGranted => GrantedKeeps(cfg, s);
    case LeaseRefused => PhaseTurnsKeep(cfg, s);
    case AcquireThrew => PhaseTurnsKeep(cfg, s);
    case PartialReleased => RefuseStepKeeps(cfg, s, false);
    case PartialReleaseThrew => RefuseStepKeeps(cfg, s, true);
    case CleanupReleased => CleanupStepKeeps(cfg, s);
    case LookupReturned(verdict) => AfterLookupKeeps(cfg, s, verdict);
    case LookupThrew => AfterLookupKeeps(cfg, s, NotDue);
  }

  /** Steps of a running handler and its result. */
  lemma HandlerStepsKeep(cfg: Config, s: State, e: Event)
    requires cfg.Valid() && Inv(cfg, s)
    requires e.HandlerStarted? || e.HandlerSettled? || e.TimeoutFired? || e.CallerAborted? || e.OutcomeJoined?
             || e.GraceExpired? || e.RecordReturned? || e.RecordThrew?
    ensures Inv(cfg, Next(cfg, s, e))
  {
    hide Inv, StartHandler, SettleHandler, AbortRun, Joined, GiveUp, Advance, LeaveWork, WorkAborted;
    match e
    case HandlerStarted(h) => StartHandlerKeeps(cfg, s, h);
    case HandlerSettled(h) => SettleHandlerKeeps(cfg, s, h);
    case TimeoutFired => RaceTurnsKeep(cfg, s);
    case CallerAborted => RaceTurnsKeep(cfg, s);
    case OutcomeJoined(finishes) => JoinedKeeps(cfg, s, finishes);
    case GraceExpired => RaceTurnsKeep(cfg, s);
    case RecordReturned => if s.phase.Record? { RecordTurnsKeep(cfg, s); }
    case RecordThrew => if s.phase.Record? { RecordTurnsKeep(cfg, s); }
  }

  lemma NextKeeps(cfg: Config, s: State, e: Event)
    requires cfg.Valid() && Inv(cfg, s)
    ensures Inv(cfg, Next(cfg, s, e))
  {
    hide Inv, EndCycle, LoseLease, AskShutdown, ShutdownOver;
    match e
    case DrainSettled => PhaseTurnsKeep(cfg, s);
    case CycleSettled => EndCycleKeeps(cfg, s);
    case LeaseLost(l) => LoseLeaseKeeps(cfg, s, l);
    case ShutdownRequested => ShutdownKeeps(cfg, s, false);
    case ShutdownSawCycleEnd => ShutdownKeeps(cfg, s, false);
    case ShutdownTimedOut => ShutdownKeeps(cfg, s, true);
    case _ =>
      if e.HandlerStarted? || e.HandlerSettled? || e.TimeoutFired? || e.CallerAborted? || e.OutcomeJoined?
         || e.GraceExpired? || e.RecordReturned? || e.RecordThrew? {
        HandlerStepsKeep(cfg, s, e);
      } else {
        AcquisitionKeeps(cfg, s, e);
      }
  }

  lemma {:induction false} RunKeeps(cfg: Config, s: State, events: seq<Event>)
    requires cfg.Valid() && Inv(cfg, s)
    ensures Inv(cfg, Run(cfg, s, events))
    decreases |events|
  {
    if events != [] {
      NextKeeps(cfg, s, events[0]);
      RunKeeps(cfg, Next(cfg, s, events[0]), events[1..]);
    }
  }

  // ----- What every step keeps of the history

  /** Leases keep their identity, releases and losses are never taken back, an abandoned cycle stays abandoned. */
  ghost predicate Grows(s: State, t: State) {
    && |s.leases| <= |t.leases|
    && (forall l | 0 <= l < |s.leases| ::
          && t.leases[l].source == s.leases[l].source
          && t.leases[l].cycle == s.leases[l].cycle
          && (s.leases[l].released ==> t.leases[l].released)
          && (s.leases[l].lost ==> t.leases[l].lost))
    && s.records <= t.records
    && (s.stuck.Some? ==> t.stuck == s.stuck)
    && (s.status.Fatal? ==> t.status.Fatal?)
    && (s.status.Stopped? ==> t.status.Stopped?)
    && (s.status.Draining? || s.status.Stopped? || s.status.Fatal? ==> t.cycle == s.cycle)
    && (s.status.Draining? ==> t.status.Draining? || t.status.Stopped? || t.status.Fatal?)
  }

  lemma LeaveWorkGrows(s: State, failed: bool)
    ensures Grows(s, LeaveWork(s, failed))
  {
  }

  lemma WorkTurnsGrow(cfg: Config, s: State, e: Event)
    requires e.LookupReturned? || e.LookupThrew? || e.OutcomeJoined? || e.RecordReturned? || e.RecordThrew?
    requires StatusInv(s)
    ensures Grows(s, Next(cfg, s, e))
  {
    LeaveWorkGrows(s, false);
    LeaveWorkGrows(s, true);
  }

  lemma CycleTurnsGrow(cfg: Config, s: State, e: Event)
    requires e.RunCycle? || e.LeaseGranted? || e.CycleSettled? || e.GraceExpired?
    requires StatusInv(s) && ReleaseInv(s)
    ensures Grows(s, Next(cfg, s, e))
  {
  }

  lemma OtherTurnsGrow(cfg: Config, s: State, e: Event)
    requires !(e.LookupReturned? || e.LookupThrew? || e.OutcomeJoined? || e.RecordReturned? || e.RecordThrew?)
    requires !(e.RunCycle? || e.LeaseGranted? || e.CycleSettled? || e.GraceExpired?)
    requires StatusInv(s)
    ensures Grows(s, Next(cfg, s, e))
  {
  }

  lemma NextGrows(cfg: Config, s: State, e: Event)
    requires Inv(cfg, s)
    ensures Grows(s, Next(cfg, s, e))
  {
    if e.LookupReturned? || e.LookupThrew? || e.OutcomeJoined? || e.RecordReturned? || e.RecordThrew? {
      WorkTurnsGrow(cfg, s, e);
    } else if e.RunCycle? || e.LeaseGranted? || e.CycleSettled? || e.GraceExpired? {
      CycleTurnsGrow(cfg, s, e);
    } else {
      OtherTurnsGrow(cfg, s, e);
    }
  }

  lemma {:induction false} RunGrows(cfg: Config, s: State, events: seq<Event>)
    requires cfg.Valid() && Inv(cfg, s)
    ensures Grows(s, Run(cfg, s, events))
    decreases |events|
  {
    if events != [] {
      NextGrows(cfg, s, events[0]);
      NextKeeps(cfg, s, events[0]);
      RunGrows(cfg, Next(cfg, s, events[0]), events[1..]);
    }
  }

  lemma {:induction false} RunConcat(cfg: Config, s: State, before: seq<Event>, after: seq<Event>)
    ensures Run(cfg, s, before + after) == Run(cfg, Run(cfg, s, before), after)
    decreases |before|
  {
    if before == [] {
      assert before + after == after;
    } else {
      assert (before + after)[0] == before[0] && (before + after)[1..] == before[1..] + after;
      RunConcat(cfg, Next(cfg, s, before[0]), before[1..], after);
    }
  }

  // ----- Main theorems: every interleaving, from start-up

  /**
   No lease is given back while a handler of its cycle may still be running:
   a started handler that has not settled, or one still to be started.
   */
  lemma NoReleaseUnderARunningHandler(cfg: Config, events: seq<Event>, h: HandlerId, l: LeaseId)
    requires cfg.Valid()
    ensures var s := Run(cfg, INITIAL, events);
            h < |s.handlers| && !s.handlers[h].state.Settled?
            && l < |s.leases| && s.leases[l].cycle == s.handlers[h].cycle
            ==> !s.leases[l].released
  {
    InitialHolds(cfg);
    RunKeeps(cfg, INITIAL, events);
  }

  /**
   Between cycles, either every lease ever acquired has been given back, or the
   last cycle met an unresponsive handler: then the worker is fatal, none of that
   cycle's leases was given back, and every earlier one was.
   */
  lemma LeasesBetweenCycles(cfg: Config, events: seq<Event>)
    requires cfg.Valid()
    ensures var s := Run(cfg, INITIAL, events);
            !s.activeCycle ==>
              || (s.stuck.None? && forall l | 0 <= l < |s.leases| :: s.leases[l].released)
              || (s.stuck == Some(s.cycle) && s.status.Fatal?
                  && forall l | 0 <= l < |s.leases| :: s.leases[l].released <==> s.leases[l].cycle < s.cycle)
  {
    InitialHolds(cfg);
    RunKeeps(cfg, INITIAL, events);
  }

  /** An unresponsive handler's leases stay unreleased for the rest of the process: only expiry frees them. */
  lemma AbandonedLeasesAreNeverReleased(cfg: Config, events: seq<Event>, more: seq<Event>, l: LeaseId)
    requires cfg.Valid()
    ensures var s := Run(cfg, INITIAL, events);
            s.stuck.Some? && l < |s.leases| && s.leases[l].cycle == s.stuck.value ==>
              var t := Run(cfg, INITIAL, events + more);
              l < |t.leases| && t.leases[l].cycle == s.stuck.value && !t.leases[l].released
  {
    var s := Run(cfg, INITIAL, events);
    InitialHolds(cfg);
    RunKeeps(cfg, INITIAL, events);
    RunGrows(cfg, s, more);
    RunKeeps(cfg, s, more);
    RunConcat(cfg, INITIAL, events, more);
  }

  /**
   The status machine: the exit code is 1 exactly when fatal; fatal and stopped
   are final and no cycle starts after a shutdown request; a stopped worker has
   no cycle and has given back every lease; one cycle runs at a time.
   */
  lemma StatusMachine(cfg: Config, events: seq<Event>, more: seq<Event>)
    requires cfg.Valid()
    ensures var s, t := Run(cfg, INITIAL, events), Run(cfg, INITIAL, events + more);
            && (s.exitCode == if s.status.Fatal? then 1 else 0)
            && (s.status.Fatal? ==> t.status.Fatal?)
            && (s.status.Stopped? ==> t.status.Stopped?)
            && (!s.shutdown.NotRequested? ==> t.cycle == s.cycle)
            && (s.status.Stopped? ==> !s.activeCycle && forall l | 0 <= l < |s.leases| :: s.leases[l].released)
  {
    var s := Run(cfg, INITIAL, events);
    InitialHolds(cfg);
    RunKeeps(cfg, INITIAL, events);
    RunGrows(cfg, s, more);
    RunConcat(cfg, INITIAL, events, more);
  }

  /**
   A result is submitted only with the fence of its own source's lease from the
   running cycle, while that lease is neither lost nor given back, and after
   every handler of the cycle has settled.
   */
  lemma ResultsAreFenced(cfg: Config, events: seq<Event>, e: Event)
    requires cfg.Valid()
    ensures var s := Run(cfg, INITIAL, events);
            var t := Next(cfg, s, e);
            t.records != s.records ==>
              && |t.records| == |s.records| + 1
              && var call := t.records[|s.records|];
                 && call.schedule < |cfg.schedules| && call.lease < |s.leases|
                 && s.leases[call.lease] == Lease(cfg.schedules[call.schedule], s.cycle, false, false)
                 && forall h | 0 <= h < |s.handlers| :: s.handlers[h].state.Settled?
  {
    var s := Run(cfg, INITIAL, events);
    InitialHolds(cfg);
    RunKeeps(cfg, INITIAL, events);
    RecordTurn(cfg, s, e);
  }

  lemma RecordTurn(cfg: Config, s: State, e: Event)
    requires cfg.Valid() && Inv(cfg, s)
    ensures Next(cfg, s, e).records != s.records ==>
              && Working(s.phase) && s.phase.schedule < |cfg.schedules|
              && Next(cfg, s, e).records ==
                   s.records + [RecordCall(s.phase.schedule, s.base + cfg.schedules[s.phase.schedule])]
              && !s.leases[s.base + cfg.schedules[s.phase.schedule]].lost
              && forall h | 0 <= h < |s.handlers| :: s.handlers[h].state.Settled?
  {
    if e.OutcomeJoined? || e.LookupReturned? {
      if Next(cfg, s, e).records != s.records { RecordsAfterRun(cfg, s, e); }
    } else {
      hide Inv, WorkAborted;
    }
  }

  /** Only the end of a run records, and then every handler has settled. */
  lemma RecordsAfterRun(cfg: Config, s: State, e: Event)
    requires cfg.Valid() && Inv(cfg, s) && (e.OutcomeJoined? || e.LookupReturned?)
    requires Next(cfg, s, e).records != s.records
    ensures Working(s.phase) && Next(cfg, s, e) == AfterRun(cfg, s, s.phase.schedule)
    ensures forall h | 0 <= h < |s.handlers| :: s.handlers[h].state.Settled?
  {
    hide LeaseInv, RecordInv, WorkAborted, AfterRun;
  }
}
