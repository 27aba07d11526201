/**
 The runtime as the object it is in the source: fields updated in place, one
 method per turn of the event loop. Each method performs exactly the transition
 `Runtime.Next` of its event, keeps the protocol's invariant and takes nothing
 back, so `SafeBetweenCalls` holds after every sequence of calls.
 */
module WorkerRuntimeObject {
  import opened Wrappers
  import opened Runtime

  class WorkerRuntime {
    const cfg: Config
    var status: Status
    var exitCode: nat
    var aborted: bool
    var activeCycle: bool
    var shutdown: Shutdown
    var phase: Phase
    var cycle: nat
    var base: nat
    var leases: seq<Lease>
    var handlers: seq<Handler>
    var records: seq<RecordCall>
    var stuck: Option<nat>

    function Snapshot(): State
      reads this
    {
      State(status, exitCode, aborted, activeCycle, shutdown, phase, cycle, base, leases, handlers, records, stuck)
    }

    ghost predicate Valid()
      reads this
    {
      cfg.Valid() && Inv(cfg, Snapshot())
    }

    /** What holds of the object whenever no method is running. */
    lemma SafeBetweenCalls(h: HandlerId, l: LeaseId)
      requires Valid() && h < |handlers| && l < |leases| && leases[l].cycle == handlers[h].cycle
      ensures !handlers[h].state.Settled? ==> !leases[l].released
      ensures !activeCycle && stuck.None? ==> leases[l].released
      ensures exitCode == if status.Fatal? then 1 else 0
    {
    }

    constructor (cfg: Config)
      requires cfg.Valid()
      ensures this.cfg == cfg && Snapshot() == INITIAL && Valid()
    {
      InitialHolds(cfg);
      this.cfg := cfg;
      status, exitCode, aborted, activeCycle, shutdown := Idle, 0, false, false, NotRequested;
      phase, cycle, base, leases, handlers, records, stuck := NoCycle, 0, 0, [], [], [], None;
    }

    /** `runCycle`: refuses after a shutdown, joins a cycle in flight, otherwise starts one. */
    method RunCycle()
      requires Valid()
      modifies this
      ensures Snapshot() == Next(cfg, old(Snapshot()), Event.RunCycle)
      ensures Valid() && Grows(old(Snapshot()), Snapshot())
    {
      StepKeepsAndGrows(cfg, Snapshot(), Event.RunCycle);
      if status.Draining? || status.Stopped? || status.Fatal? || activeCycle {
        return;
      }
      status, activeCycle, cycle, base := Running, true, cycle + 1, |leases|;
      if cfg.sourceCount == 0 {
        EnterWork(0);
      } else {
        phase := Acquire;
      }
    }

    /** The composite abort signal, read by walking the cycle's leases. */
    method IsWorkAborted() returns (b: bool)
      ensures b == WorkAborted(Snapshot())
    {
      b := aborted;
      var l := base;
      while l < |leases|
        invariant base <= l
        invariant b <==> aborted || exists i :: base <= i < l && i < |leases| && leases[i].lost
      {
        b := b || leases[l].lost;
        l := l + 1;
      }
    }

    /** Leaving the work loop: `release()` on every lease of the cycle. */
    method ReleaseCycleLeases(failed: bool)
      modifies this`leases, this`phase
      ensures Snapshot() == LeaveWork(old(Snapshot()), failed)
    {
      var l := base;
      while l < |leases|
        invariant base <= l
        invariant |leases| == old(|leases|)
        invariant forall i | 0 <= i < |leases| ::
                    leases[i] == if base <= i < l then old(leases)[i].(released := true) else old(leases)[i]
      {
        leases := leases[l := leases[l].(released := true)];
        l := l + 1;
      }
      phase := Drain(failed);
      assert leases == ReleaseFrom(old(leases), base);
    }

    /** The head of the work loop. */
    method EnterWork(k: nat)
      modifies this`leases, this`phase
      ensures Snapshot() == Advance(cfg, old(Snapshot()), k)
    {
      var stop := IsWorkAborted();
      if k >= |cfg.schedules| || stop {
        ReleaseCycleLeases(false);
      } else {
        phase := Lookup(k);
      }
    }

    method SubmitResult(k: nat)
      modifies this`leases, this`phase, this`records
      ensures Snapshot() == AfterRun(cfg, old(Snapshot()), k)
    {
      if k >= |cfg.schedules| {
        return;
      }
      var l := base + cfg.schedules[k];
      if l < |leases| && leases[l].lost {
        ReleaseCycleLeases(false);
      } else {
        phase, records := Record(k), records + [RecordCall(k, l)];
      }
    }

    method OnLeaseGranted()
      requires Valid()
      requires phase.Acquire?
      modifies this`leases, this`phase
      ensures Snapshot() == Next(cfg, old(Snapshot()), LeaseGranted)
      ensures Valid() && Grows(old(Snapshot()), Snapshot())
    {
      StepKeepsAndGrows(cfg, Snapshot(), LeaseGranted);
      var acquired := |leases| - base;
      leases := leases + [Lease(acquired, cycle, false, false)];
      if acquired + 1 >= cfg.sourceCount {
        EnterWork(0);
      }
    }

    method OnLeaseNotGranted(threw: bool)
      requires Valid()
      requires phase.Acquire?
      modifies this`phase
      ensures Snapshot() == Next(cfg, old(Snapshot()), if threw then AcquireThrew else LeaseRefused)
      ensures Valid() && Grows(old(Snapshot()), Snapshot())
    {
      StepKeepsAndGrows(cfg, Snapshot(), if threw then AcquireThrew else LeaseRefused);
      phase := if threw then Cleanup(0) else Refuse(0);
    }

    method OnPartialRelease(threw: bool)
      requires Valid()
      requires phase.Refuse?
      modifies this`leases, this`phase
      ensures Snapshot() == Next(cfg, old(Snapshot()), if threw then PartialReleaseThrew else PartialReleased)
      ensures Valid() && Grows(old(Snapshot()), Snapshot())
    {
      StepKeepsAndGrows(cfg, Snapshot(), if threw then PartialReleaseThrew else PartialReleased);
      var l := base + phase.next;
      if l < |leases| {
        leases := leases[l := leases[l].(released := true)];
        phase := if threw then Cleanup(0) else Refuse(phase.next + 1);
      } else {
        phase := Exiting(false);
      }
    }

    method OnCleanupRelease()
      requires Valid()
      requires phase.Cleanup?
      modifies this`leases, this`phase
      ensures Snapshot() == Next(cfg, old(Snapshot()), CleanupReleased)
      ensures Valid() && Grows(old(Snapshot()), Snapshot())
    {
      StepKeepsAndGrows(cfg, Snapshot(), CleanupReleased);
      var l := base + phase.next;
      if l < |leases| {
        leases := leases[l := leases[l].(released := true)];
        phase := Cleanup(phase.next + 1);
      } else {
        phase := Exiting(!aborted);
      }
    }

    method OnLookup(verdict: Verdict)
      requires Valid()
      requires phase.Lookup?
      modifies this`leases, this`phase, this`records, this`handlers
      ensures Snapshot() == Next(cfg, old(Snapshot()), LookupReturned(verdict))
      ensures Valid() && Grows(old(Snapshot()), Snapshot())
    {
      StepKeepsAndGrows(cfg, Snapshot(), LookupReturned(verdict));
      var stop := IsWorkAborted();
      if stop {
        ReleaseCycleLeases(false);
        return;
      }
      match verdict
      case NotDue => EnterWork(phase.schedule + 1);
      case Unrunnable => ReleaseCycleLeases(true);
      case NoHandler => SubmitResult(phase.schedule);
      case Launch =>
        handlers, phase :=
          handlers + [Handler(phase.schedule, cycle, Pending, false)], Race(phase.schedule, |handlers|);
    }

    method OnLookupThrew()
      requires Valid()
      requires phase.Lookup?
      modifies this`leases, this`phase
      ensures Snapshot() == Next(cfg, old(Snapshot()), LookupThrew)
      ensures Valid() && Grows(old(Snapshot()), Snapshot())
    {
      StepKeepsAndGrows(cfg, Snapshot(), LookupThrew);
      var stop := IsWorkAborted();
      ReleaseCycleLeases(!stop);
    }

    /** The deferred microtask that calls the handler unless the run was aborted first. */
    method OnHandlerTurn(h: HandlerId)
      requires Valid()
      requires h < |handlers| && handlers[h].state.Pending?
      modifies this`handlers
      ensures Snapshot() == Next(cfg, old(Snapshot()), HandlerStarted(h))
      ensures Valid() && Grows(old(Snapshot()), Snapshot())
    {
      StepKeepsAndGrows(cfg, Snapshot(), HandlerStarted(h));
      handlers := handlers[h := handlers[h].(state := if handlers[h].aborted then Settled else Active)];
    }

    method OnHandlerSettled(h: HandlerId)
      requires Valid()
      requires h < |handlers| && handlers[h].state.Active?
      modifies this`handlers
      ensures Snapshot() == Next(cfg, old(Snapshot()), HandlerSettled(h))
      ensures Valid() && Grows(old(Snapshot()), Snapshot())
    {
      StepKeepsAndGrows(cfg, Snapshot(), HandlerSettled(h));
      handlers := handlers[h := handlers[h].(state := Settled)];
    }

    /** The timeout timer, or the caller's abort listener: the run is aborted and joined. */
    method OnAbort(timedOut: bool)
      requires Valid()
      requires phase.Race?
      requires timedOut || WorkAborted(Snapshot())
      modifies this`handlers, this`phase
      ensures Snapshot() == Next(cfg, old(Snapshot()), if timedOut then TimeoutFired else CallerAborted)
      ensures Valid() && Grows(old(Snapshot()), Snapshot())
    {
      StepKeepsAndGrows(cfg, Snapshot(), if timedOut then TimeoutFired else CallerAborted);
      var h := phase.handler;
      handlers := handlers[h := handlers[h].(aborted := true)];
      phase := Join(phase.schedule, h);
    }

    method OnOutcome(finishes: bool)
      requires Valid()
      requires (phase.Race? || phase.Join?) && handlers[phase.handler].state.Settled?
      modifies this`leases, this`phase, this`records
      ensures Snapshot() == Next(cfg, old(Snapshot()), OutcomeJoined(finishes))
      ensures Valid() && Grows(old(Snapshot()), Snapshot())
    {
      StepKeepsAndGrows(cfg, Snapshot(), OutcomeJoined(finishes));
      if finishes {
        SubmitResult(phase.schedule);
      } else {
        ReleaseCycleLeases(true);
      }
    }

    /** `WorkerUnresponsiveError`: the only exit that keeps the leases. */
    method OnGraceExpired()
      requires Valid()
      requires phase.Join? && !handlers[phase.handler].state.Settled?
      modifies this`phase, this`stuck
      ensures Snapshot() == Next(cfg, old(Snapshot()), GraceExpired)
      ensures Valid() && Grows(old(Snapshot()), Snapshot())
    {
      StepKeepsAndGrows(cfg, Snapshot(), GraceExpired);
      phase, stuck := Exiting(true), Some(cycle);
    }

    method OnRecorded(threw: bool)
      requires Valid()
      requires phase.Record?
      modifies this`leases, this`phase
      ensures Snapshot() == Next(cfg, old(Snapshot()), if threw then RecordThrew else RecordReturned)
      ensures Valid() && Grows(old(Snapshot()), Snapshot())
    {
      StepKeepsAndGrows(cfg, Snapshot(), if threw then RecordThrew else RecordReturned);
      if threw {
        ReleaseCycleLeases(true);
      } else {
        EnterWork(phase.schedule + 1);
      }
    }

    method OnDrained()
      requires Valid()
      requires phase.Drain?
      modifies this`phase
      ensures Snapshot() == Next(cfg, old(Snapshot()), DrainSettled)
      ensures Valid() && Grows(old(Snapshot()), Snapshot())
    {
      StepKeepsAndGrows(cfg, Snapshot(), DrainSettled);
      phase := Exiting(phase.failed);
    }

    method SetFatal()
      modifies this`exitCode, this`status, this`aborted
      ensures Snapshot() == MarkFatal(old(Snapshot()))
    {
      exitCode, status, aborted := 1, Fatal, true;
    }

    /** The `catch` and `finally` of `runCycle`. */
    method OnCycleSettled()
      requires Valid()
      requires phase.Exiting?
      modifies this
      ensures Snapshot() == Next(cfg, old(Snapshot()), CycleSettled)
      ensures Valid() && Grows(old(Snapshot()), Snapshot())
    {
      StepKeepsAndGrows(cfg, Snapshot(), CycleSettled);
      if phase.failed {
        SetFatal();
      }
      activeCycle, phase, base := false, NoCycle, |leases|;
      if status.Running? {
        status := Idle;
      }
    }

    method OnLeaseLost(l: LeaseId)
      requires Valid()
      requires l < |leases|
      modifies this`leases
      ensures Snapshot() == Next(cfg, old(Snapshot()), LeaseLost(l))
      ensures Valid() && Grows(old(Snapshot()), Snapshot())
    {
      StepKeepsAndGrows(cfg, Snapshot(), LeaseLost(l));
      leases := leases[l := leases[l].(lost := true)];
    }

    method RequestShutdown()
      requires Valid()
      modifies this
      ensures Snapshot() == Next(cfg, old(Snapshot()), ShutdownRequested)
      ensures Valid() && Grows(old(Snapshot()), Snapshot())
    {
      StepKeepsAndGrows(cfg, Snapshot(), ShutdownRequested);
      if !shutdown.NotRequested? {
        return;
      }
      if status.Fatal? || status.Stopped? {
        shutdown := Done;
        return;
      }
      status, aborted := Draining, true;
      if activeCycle {
        shutdown := Waiting;
      } else {
        shutdown, status := Done, Stopped;
      }
    }

    /** The end of `finishShutdown`'s race between the active cycle and the grace timer. */
    method OnShutdownWaitOver(timedOut: bool)
      requires Valid()
      requires shutdown.Waiting? && timedOut == activeCycle
      modifies this
      ensures Snapshot() == Next(cfg, old(Snapshot()), if timedOut then ShutdownTimedOut else ShutdownSawCycleEnd)
      ensures Valid() && Grows(old(Snapshot()), Snapshot())
    {
      StepKeepsAndGrows(cfg, Snapshot(), if timedOut then ShutdownTimedOut else ShutdownSawCycleEnd);
      shutdown := Done;
      if timedOut {
        SetFatal();
      } else if !status.Fatal? {
        status := Stopped;
      }
    }
  }

  lemma StepKeepsAndGrows(cfg: Config, s: State, e: Event)
    requires cfg.Valid() && Inv(cfg, s)
    ensures Inv(cfg, Next(cfg, s, e)) && Grows(s, Next(cfg, s, e))
  {
    NextKeeps(cfg, s, e);
    NextGrows(cfg, s, e);
  }
}
