/**
 What the worker's cycles do with their schedules (apps/worker/src/runtime.ts,
 `executeCycle`), told by the answers they received: the history of a run is read off
 the await points and the events alone, and the theorems say what the worker made of it.
 */
module RuntimeHistory {
  import opened Runtime
  import opened Wrappers

  /** `Built`: a result with its lease unlost; `TooLate`: a result whose lease was lost by then. */
  datatype What = Looked | Due | Built | TooLate | Trouble

  datatype Happening = Happening(what: What, cycle: nat, schedule: nat, lease: LeaseId)

  ghost function LeaseOf(cfg: Config, s: State, k: nat): LeaseId {
    if k < |cfg.schedules| then s.base + cfg.schedules[k] else s.base
  }

  ghost function Result(cfg: Config, s: State, k: nat): Happening {
    var l := LeaseOf(cfg, s, k);
    Happening(if l < |s.leases| && s.leases[l].lost then TooLate else Built, s.cycle, k, l)
  }

  ghost function Plain(s: State, what: What, k: nat): Happening { Happening(what, s.cycle, k, 0) }

  predicate HandlerIsSettled(s: State) {
    (s.phase.Race? || s.phase.Join?) && s.phase.handler < |s.handlers| && s.handlers[s.phase.handler].state.Settled?
  }

  /** The verdict of a lookup: nothing due, a result at once, a handler to wait for, or an error. */
  ghost function LookupHappens(cfg: Config, s: State, verdict: Verdict, k: nat): seq<Happening> {
    if WorkAborted(s) || verdict.NotDue? then [Plain(s, Looked, k)]
    else match verdict
      case Unrunnable => [Plain(s, Looked, k), Plain(s, Trouble, k)]
      case NoHandler => [Plain(s, Looked, k), Plain(s, Due, k), Result(cfg, s, k)]
      case _ => [Plain(s, Looked, k), Plain(s, Due, k)]
  }

  /** What an event means at the await point it reaches. */
  ghost function Happens(cfg: Config, s: State, e: Event): seq<Happening> {
    match e
    case LookupReturned(verdict) => if s.phase.Lookup? then LookupHappens(cfg, s, verdict, s.phase.schedule) else []
    case LookupThrew =>
      if !s.phase.Lookup? then []
      else if WorkAborted(s) then [Plain(s, Looked, s.phase.schedule)]
      else [Plain(s, Looked, s.phase.schedule), Plain(s, Trouble, s.phase.schedule)]
    case OutcomeJoined(finishes) =>
      if !HandlerIsSettled(s) then []
      else if finishes then [Result(cfg, s, s.phase.schedule)] else [Plain(s, Trouble, s.phase.schedule)]
    case GraceExpired => if s.phase.Join? && !HandlerIsSettled(s) then [Plain(s, Trouble, s.phase.schedule)] else []
    case RecordThrew => if s.phase.Record? then [Plain(s, Trouble, s.phase.schedule)] else []
    case CleanupReleased =>
      if s.phase.Cleanup? && s.base + s.phase.next >= |s.leases| && !s.aborted then [Plain(s, Trouble, 0)] else []
    case _ => []
  }

  ghost function History(cfg: Config, events: seq<Event>): seq<Happening> {
    if events == [] then []
    else
      var init := events[..|events| - 1];
      History(cfg, init) + Happens(cfg, Run(cfg, INITIAL, init), events[|events| - 1])
  }

  /** The schedules to which one of these things happened in a cycle, in order. */
  ghost function Of(h: seq<Happening>, cycle: nat, whats: set<What>): seq<nat> {
    if h == [] then []
    else
      var before, last := Of(h[..|h| - 1], cycle, whats), h[|h| - 1];
      if last.cycle == cycle && last.what in whats then before + [last.schedule] else before
  }

  /** The calls of `recordResult` that the results ask for. */
  ghost function Submitted(h: seq<Happening>): seq<RecordCall> {
    if h == [] then []
    else
      var before, last := Submitted(h[..|h| - 1]), h[|h| - 1];
      if last.what.Built? then before + [RecordCall(last.schedule, last.lease)] else before
  }

  lemma {:induction false} OfConcat(h: seq<Happening>, g: seq<Happening>, cycle: nat, whats: set<What>)
    ensures Of(h + g, cycle, whats) == Of(h, cycle, whats) + Of(g, cycle, whats)
  {
    if g == [] {
      assert h + g == h;
    } else {
      assert (h + g)[..|h + g| - 1] == h + g[..|g| - 1];
      OfConcat(h, g[..|g| - 1], cycle, whats);
    }
  }

  lemma {:induction false} SubmittedConcat(h: seq<Happening>, g: seq<Happening>)
    ensures Submitted(h + g) == Submitted(h) + Submitted(g)
  {
    if g == [] {
      assert h + g == h;
    } else {
      assert (h + g)[..|h + g| - 1] == h + g[..|g| - 1];
      SubmittedConcat(h, g[..|g| - 1]);
    }
  }

  ghost function Upto(n: nat): seq<nat> { seq(n, i requires 0 <= i < n => i) }

  const RESULTS: set<What> := {Built, TooLate}

  /** How far the loop over the schedules has come. */
  datatype Progress = Progress(looked: seq<nat>, due: seq<nat>, results: seq<nat>, troubled: bool)

  ghost function ProgressOf(h: seq<Happening>, cycle: nat): Progress {
    Progress(Of(h, cycle, {Looked}), Of(h, cycle, {Due}), Of(h, cycle, RESULTS), Of(h, cycle, {Trouble}) != [])
  }

  ghost function Plus(p: Progress, q: Progress): Progress {
    Progress(p.looked + q.looked, p.due + q.due, p.results + q.results, p.troubled || q.troubled)
  }

  lemma ProgressAdds(h: seq<Happening>, g: seq<Happening>, cycle: nat)
    ensures ProgressOf(h + g, cycle) == Plus(ProgressOf(h, cycle), ProgressOf(g, cycle))
  {
    OfConcat(h, g, cycle, {Looked});
    OfConcat(h, g, cycle, {Due});
    OfConcat(h, g, cycle, RESULTS);
    OfConcat(h, g, cycle, {Trouble});
  }

  // ----- Invariant

  /** The phase of a cycle and what happened in it say the same. */
  ghost predicate InStep(cfg: Config, s: State, p: Progress) {
    match s.phase
    case NoCycle => true
    case Lookup(k) => p == Progress(Upto(k), p.due, p.due, false)
    case Race(k, _) => p == Progress(Upto(k + 1), p.results + [k], p.results, false)
    case Join(k, _) => p == Progress(Upto(k + 1), p.results + [k], p.results, false)
    case Record(k) => p == Progress(Upto(k + 1), p.due, p.due, false)
    case Drain(failed) =>
      && failed == p.troubled
      && (!failed ==> WorkAborted(s) || p == Progress(Upto(|cfg.schedules|), p.due, p.due, false))
    case Exiting(failed) => failed == p.troubled
    case _ => p == Progress([], [], [], false)
  }

  ghost predicate InOrder(cfg: Config, p: Progress) { |p.looked| <= |cfg.schedules| && p.looked == Upto(|p.looked|) }

  ghost predicate HistoryInv(cfg: Config, s: State, h: seq<Happening>) {
    && s.records == Submitted(h)
    && (forall i | 0 <= i < |h| :: h[i].cycle <= s.cycle)
    && InStep(cfg, s, ProgressOf(h, s.cycle))
    && InOrder(cfg, ProgressOf(h, s.cycle))
  }

  // ----- The progress of a few happenings

  const NOTHING := Progress([], [], [], false)

  ghost function One(x: Happening): Progress {
    match x.what
    case Looked => NOTHING.(looked := [x.schedule])
    case Due => NOTHING.(due := [x.schedule])
    case Trouble => NOTHING.(troubled := true)
    case _ => NOTHING.(results := [x.schedule])
  }

  lemma ProgressOfOne(x: Happening, cycle: nat)
    ensures ProgressOf([x], cycle) == if x.cycle == cycle then One(x) else NOTHING
  {
    assert [x][..0] == [];
    forall whats: set<What>
      ensures Of([x], cycle, whats) == if x.cycle == cycle && x.what in whats then [x.schedule] else []
    {
      assert Of([x][..0], cycle, whats) == [];
    }
  }

  lemma ProgressOfFew(a: Happening, b: Happening, c: Happening, cycle: nat)
    requires a.cycle == b.cycle == c.cycle == cycle
    ensures ProgressOf([a], cycle) == One(a)
    ensures ProgressOf([a, b], cycle) == Plus(One(a), One(b))
    ensures ProgressOf([a, b, c], cycle) == Plus(Plus(One(a), One(b)), One(c))
  {
    ProgressOfOne(a, cycle);
    ProgressOfOne(b, cycle);
    ProgressOfOne(c, cycle);
    assert [a, b] == [a] + [b] && [a, b, c] == [a, b] + [c];
    ProgressAdds([a], [b], cycle);
    ProgressAdds([a, b], [c], cycle);
  }

  lemma SubmittedFew(a: Happening, b: Happening, c: Happening)
    requires !a.what.Built? && !b.what.Built?
    ensures Submitted([a]) == [] && Submitted([a, b]) == []
    ensures Submitted([c]) == Submitted([a, b, c]) == if c.what.Built? then [RecordCall(c.schedule, c.lease)] else []
  {
    SubmittedOne(a);
    SubmittedOne(b);
    SubmittedOne(c);
    assert [a, b] == [a] + [b] && [a, b, c] == [a, b] + [c];
    SubmittedConcat([a], [b]);
    SubmittedConcat([a, b], [c]);
  }

  lemma SubmittedOne(x: Happening)
    ensures Submitted([x]) == if x.what.Built? then [RecordCall(x.schedule, x.lease)] else []
  {
    assert Submitted([x][..0]) == [];
  }

  lemma {:induction false} NothingYet(h: seq<Happening>, cycle: nat, whats: set<What>)
    requires forall i | 0 <= i < |h| :: h[i].cycle < cycle
    ensures Of(h, cycle, whats) == []
  {
    if h != [] { NothingYet(h[..|h| - 1], cycle, whats); }
  }

  // ----- Every turn keeps phase and history in step

  /** The turn's own effect on records, cycle and phase, with what it adds to the history. */
  ghost predicate TurnKeeps(cfg: Config, s: State, e: Event, p: Progress) {
    var s', g := Next(cfg, s, e), Happens(cfg, s, e);
    var p' := Plus(p, ProgressOf(g, s.cycle));
    && s'.records == s.records + Submitted(g)
    && (forall i | 0 <= i < |g| :: g[i].cycle == s.cycle)
    && s'.cycle == s.cycle && InStep(cfg, s', p') && InOrder(cfg, p')
  }

  lemma UptoGrows(k: nat)
    ensures Upto(k) + [k] == Upto(k + 1)
  {
  }

  /** The schedule of a working phase exists and its lease is held. */
  ghost predicate AtWork(cfg: Config, s: State) {
    && Working(s.phase) && s.phase.schedule < |cfg.schedules|
    && s.base + cfg.schedules[s.phase.schedule] < |s.leases|
    && (s.phase.Race? || s.phase.Join? ==> s.phase.handler < |s.handlers|)
  }

  lemma WorkingIsAtWork(cfg: Config, s: State)
    requires cfg.Valid() && Inv(cfg, s) && Working(s.phase)
    ensures AtWork(cfg, s)
  {
    hide StatusInv, ReleaseInv, RecordInv;
  }

  lemma LeavingKeepsAbort(s: State, failed: bool)
    ensures WorkAborted(LeaveWork(s, failed)) == WorkAborted(s)
  {
    var s' := LeaveWork(s, failed);
    forall l | 0 <= l < |s.leases| ensures s'.leases[l].lost == s.leases[l].lost { }
  }

  /** Leaving the loop: failed for a trouble, else because work is aborted or every schedule was looked up. */
  lemma LeavingIsInStep(cfg: Config, s: State, failed: bool, p: Progress)
    requires failed == p.troubled
    requires !failed ==> WorkAborted(s) || p == Progress(Upto(|cfg.schedules|), p.due, p.due, false)
    ensures InStep(cfg, LeaveWork(s, failed), p)
  {
    LeavingKeepsAbort(s, failed);
    hide WorkAborted;
  }

  lemma AdvanceIsInStep(cfg: Config, s: State, k: nat, p: Progress)
    requires k <= |cfg.schedules| && p == Progress(Upto(k), p.due, p.due, false)
    ensures InStep(cfg, Advance(cfg, s, k), p)
  {
    if k == |cfg.schedules| || WorkAborted(s) { LeavingIsInStep(cfg, s, false, p); }
    hide WorkAborted, LeaveWork;
  }

  lemma AfterRunIsInStep(cfg: Config, s: State, p: Progress)
    requires AtWork(cfg, s) && p == Progress(Upto(s.phase.schedule + 1), p.due, p.due, false)
    ensures InStep(cfg, AfterRun(cfg, s, s.phase.schedule), p)
    ensures var r := Result(cfg, s, s.phase.schedule);
            AfterRun(cfg, s, s.phase.schedule).records
            == s.records + if r.what.Built? then [RecordCall(r.schedule, r.lease)] else []
  {
    var l := s.base + cfg.schedules[s.phase.schedule];
    if s.leases[l].lost {
      assert WorkAborted(s);
      LeavingIsInStep(cfg, s, false, p);
    }
  }

  lemma SubmitsNothing(s: State, a: What, b: What, k: nat)
    requires a != Built && b != Built
    ensures Submitted([Plain(s, a, k)]) == [] && Submitted([Plain(s, a, k), Plain(s, b, k)]) == []
  {
    SubmittedFew(Plain(s, a, k), Plain(s, b, k), Plain(s, b, k));
  }

  lemma AtOnceTurn(cfg: Config, s: State, p: Progress)
    requires AtWork(cfg, s) && s.phase.Lookup? && InStep(cfg, s, p) && InOrder(cfg, p) && !WorkAborted(s)
    ensures TurnKeeps(cfg, s, LookupReturned(NoHandler), p)
  {
    var k := s.phase.schedule;
    var looked, due, result := Plain(s, Looked, k), Plain(s, Due, k), Result(cfg, s, k);
    UptoGrows(k);
    ProgressOfFew(looked, due, result, s.cycle);
    SubmittedFew(looked, due, result);
    assert result.what.Built? || result.what.TooLate?;
    var p' := Plus(p, Plus(Plus(One(looked), One(due)), One(result)));
    assert p' == Progress(Upto(k + 1), p.due + [k], p.due + [k], false);
    AfterRunIsInStep(cfg, s, p');
    assert Next(cfg, s, LookupReturned(NoHandler)) == AfterRun(cfg, s, k);
    assert Happens(cfg, s, LookupReturned(NoHandler)) == [looked, due, result];
    AfterRunKeepsTheCycle(cfg, s, k);
    hide ProgressOf, Submitted, Upto, AfterRun, Next, Happens, InStep, Result;
  }

  lemma AfterRunKeepsTheCycle(cfg: Config, s: State, k: nat)
    ensures AfterRun(cfg, s, k).cycle == s.cycle
  {
  }

  lemma LaunchTurn(cfg: Config, s: State, p: Progress)
    requires AtWork(cfg, s) && s.phase.Lookup? && InStep(cfg, s, p) && InOrder(cfg, p) && !WorkAborted(s)
    ensures TurnKeeps(cfg, s, LookupReturned(Launch), p)
  {
    var k := s.phase.schedule;
    var looked, due := Plain(s, Looked, k), Plain(s, Due, k);
    UptoGrows(k);
    ProgressOfFew(looked, due, due, s.cycle);
    SubmitsNothing(s, Looked, Due, k);
    var p' := Plus(p, Plus(One(looked), One(due)));
    assert p' == Progress(Upto(k + 1), p.due + [k], p.due, false);
    hide ProgressOf, Submitted, Upto, WorkAborted, AfterRun, Advance, LeaveWork;
  }

  lemma SkipTurn(cfg: Config, s: State, e: Event, p: Progress)
    requires AtWork(cfg, s) && s.phase.Lookup? && InStep(cfg, s, p) && InOrder(cfg, p)
    requires e == LookupThrew || (e.LookupReturned? && (WorkAborted(s) || e.verdict.NotDue? || e.verdict.Unrunnable?))
    ensures TurnKeeps(cfg, s, e, p)
  {
    var k := s.phase.schedule;
    var looked, trouble := Plain(s, Looked, k), Plain(s, Trouble, k);
    UptoGrows(k);
    ProgressOfFew(looked, trouble, trouble, s.cycle);
    SubmitsNothing(s, Looked, Trouble, k);
    hide ProgressOf, Submitted, Upto;
    var p1, p2 := Plus(p, One(looked)), Plus(p, Plus(One(looked), One(trouble)));
    if WorkAborted(s) { LeavingIsInStep(cfg, s, false, p1); }
    LeavingIsInStep(cfg, s, true, p2);
    AdvanceIsInStep(cfg, s, k + 1, p1);
    hide WorkAborted, AfterRun;
  }

  lemma LookupTurn(cfg: Config, s: State, e: Event, p: Progress)
    requires cfg.Valid() && Inv(cfg, s) && InStep(cfg, s, p) && InOrder(cfg, p)
    requires (e.LookupReturned? || e.LookupThrew?) && s.phase.Lookup?
    ensures TurnKeeps(cfg, s, e, p)
  {
    WorkingIsAtWork(cfg, s);
    hide Inv, TurnKeeps, InStep, InOrder, AtWork;
    if e.LookupThrew? || WorkAborted(s) || e.verdict.NotDue? || e.verdict.Unrunnable? {
      SkipTurn(cfg, s, e, p);
    } else {
      if e.verdict.NoHandler? { AtOnceTurn(cfg, s, p); } else { LaunchTurn(cfg, s, p); }
    }
  }

  lemma JoinTurn(cfg: Config, s: State, e: Event, p: Progress)
    requires cfg.Valid() && Inv(cfg, s) && InStep(cfg, s, p) && InOrder(cfg, p)
    requires e.OutcomeJoined? && HandlerIsSettled(s)
    ensures TurnKeeps(cfg, s, e, p)
  {
    WorkingIsAtWork(cfg, s);
    hide Inv;
    var k := s.phase.schedule;
    var result, trouble := Result(cfg, s, k), Plain(s, Trouble, k);
    ProgressOfOne(result, s.cycle);
    ProgressOfOne(trouble, s.cycle);
    SubmittedOne(result);
    SubmittedOne(trouble);
    hide ProgressOf, Submitted, Upto, WorkAborted;
    if e.finishes {
      AfterRunIsInStep(cfg, s, Plus(p, One(result)));
    } else {
      LeavingIsInStep(cfg, s, true, Plus(p, One(trouble)));
    }
    hide AfterRun;
  }

  /** A phase that only waits: nothing is looked up, due or built. */
  lemma QuietTurn(cfg: Config, s: State, e: Event, p: Progress)
    requires cfg.Valid() && Inv(cfg, s) && InStep(cfg, s, p) && InOrder(cfg, p)
    requires Happens(cfg, s, e) == [] && !e.RunCycle? && !e.LeaseGranted? && !e.RecordReturned? && !e.LeaseLost?
    ensures TurnKeeps(cfg, s, e, p)
  {
    assert Plus(p, NOTHING) == p && ProgressOf([], s.cycle) == NOTHING;
    assert Submitted([]) == [];
    hide ProgressOf, Submitted, Upto, InStep, InOrder, Inv, Next, Happens;
    if e.ShutdownRequested? || e.ShutdownSawCycleEnd? || e.ShutdownTimedOut? || e.CycleSettled? {
      StatusIsInStep(cfg, s, e, p);
    } else if e.HandlerStarted? || e.HandlerSettled? || e.TimeoutFired? || e.CallerAborted? || e.OutcomeJoined? {
      HandlerIsInStep(cfg, s, e, p);
    } else {
      WaitIsInStep(cfg, s, e, p);
    }
  }

  lemma HandlerIsInStep(cfg: Config, s: State, e: Event, p: Progress)
    requires InStep(cfg, s, p) && Happens(cfg, s, e) == []
    requires e.HandlerStarted? || e.HandlerSettled? || e.TimeoutFired? || e.CallerAborted? || e.OutcomeJoined?
    ensures InStep(cfg, Next(cfg, s, e), p) && Next(cfg, s, e).records == s.records && Next(cfg, s, e).cycle == s.cycle
  {
    hide Upto;
    var s' := Next(cfg, s, e);
    assert s'.aborted == s.aborted && s'.base == s.base && s'.leases == s.leases;
    assert WorkAborted(s') == WorkAborted(s);
    hide WorkAborted;
  }

  lemma WaitIsInStep(cfg: Config, s: State, e: Event, p: Progress)
    requires InStep(cfg, s, p) && Happens(cfg, s, e) == []
    requires || e.LeaseRefused? || e.AcquireThrew? || e.PartialReleased? || e.PartialReleaseThrew? || e.CleanupReleased?
             || e.LookupReturned? || e.LookupThrew? || e.GraceExpired? || e.RecordThrew? || e.DrainSettled?
    ensures InStep(cfg, Next(cfg, s, e), p) && Next(cfg, s, e).records == s.records && Next(cfg, s, e).cycle == s.cycle
  {
    hide Upto, WorkAborted, Advance, AfterRun;
  }

  lemma StatusIsInStep(cfg: Config, s: State, e: Event, p: Progress)
    requires InStep(cfg, s, p)
    requires e.ShutdownRequested? || e.ShutdownSawCycleEnd? || e.ShutdownTimedOut? || e.CycleSettled?
    ensures InStep(cfg, Next(cfg, s, e), p) && Next(cfg, s, e).records == s.records && Next(cfg, s, e).cycle == s.cycle
  {
    hide Upto;
  }

  /** The turns that end a phase in an error. */
  lemma TroubleTurn(cfg: Config, s: State, e: Event, p: Progress)
    requires cfg.Valid() && Inv(cfg, s) && InStep(cfg, s, p) && InOrder(cfg, p)
    requires (e.GraceExpired? || e.RecordThrew? || e.CleanupReleased?) && Happens(cfg, s, e) != []
    ensures TurnKeeps(cfg, s, e, p)
  {
    hide StatusInv, LeaseInv, ReleaseInv, RecordInv;
    var trouble := Happens(cfg, s, e)[0];
    ProgressOfOne(trouble, s.cycle);
    SubmittedOne(trouble);
    if e.RecordThrew? { LeavingIsInStep(cfg, s, true, Plus(p, One(trouble))); }
    hide ProgressOf, Submitted, Upto, WorkAborted;
  }

  lemma RecordedTurn(cfg: Config, s: State, p: Progress)
    requires cfg.Valid() && Inv(cfg, s) && InStep(cfg, s, p) && InOrder(cfg, p)
    ensures TurnKeeps(cfg, s, RecordReturned, p)
  {
    assert Plus(p, NOTHING) == p && ProgressOf([], s.cycle) == NOTHING;
    if s.phase.Record? {
      WorkingIsAtWork(cfg, s);
      AdvanceIsInStep(cfg, s, s.phase.schedule + 1, p);
    }
    hide ProgressOf, Submitted, Upto, WorkAborted, Inv;
  }

  lemma LostTurn(cfg: Config, s: State, l: LeaseId, p: Progress)
    requires InStep(cfg, s, p) && InOrder(cfg, p)
    ensures TurnKeeps(cfg, s, LeaseLost(l), p)
  {
    assert Plus(p, NOTHING) == p && ProgressOf([], s.cycle) == NOTHING;
    assert WorkAborted(s) ==> WorkAborted(LoseLease(s, l)) by {
      if !s.aborted && WorkAborted(s) {
        var i :| s.base <= i < |s.leases| && s.leases[i].lost;
        assert LoseLease(s, l).leases[i].lost;
      }
    }
    hide ProgressOf, Submitted, Upto, WorkAborted;
  }

  lemma GrantedTurn(cfg: Config, s: State, p: Progress)
    requires cfg.Valid() && Inv(cfg, s) && InStep(cfg, s, p) && InOrder(cfg, p)
    ensures TurnKeeps(cfg, s, LeaseGranted, p)
  {
    assert Plus(p, NOTHING) == p && ProgressOf([], s.cycle) == NOTHING;
    assert Upto(0) == [];
    if s.phase.Acquire? {
      LeasesAreWanted(cfg, s);
      var s1 := s.(leases := s.leases + [Lease(|s.leases| - s.base, s.cycle, false, false)]);
      AdvanceIsInStep(cfg, s1, 0, p);
    }
    hide ProgressOf, Submitted, Upto, WorkAborted, Inv, LeaveWork;
  }

  lemma BeginTurn(cfg: Config, s: State, h: seq<Happening>)
    requires cfg.Valid() && Inv(cfg, s) && HistoryInv(cfg, s, h)
    ensures HistoryInv(cfg, Next(cfg, s, RunCycle), h)
  {
    var s' := Next(cfg, s, RunCycle);
    if s' != s {
      NothingYet(h, s.cycle + 1, {Looked});
      NothingYet(h, s.cycle + 1, {Due});
      NothingYet(h, s.cycle + 1, RESULTS);
      NothingYet(h, s.cycle + 1, {Trouble});
      assert ProgressOf(h, s.cycle + 1) == NOTHING && Upto(0) == [];
      var begun := s.(status := Running, activeCycle := true, cycle := s.cycle + 1, base := |s.leases|);
      AdvanceIsInStep(cfg, begun, 0, NOTHING);
      hide ProgressOf, Submitted, Upto, WorkAborted, Inv;
    }
  }

  lemma TurnIsInStep(cfg: Config, s: State, e: Event, p: Progress)
    requires cfg.Valid() && Inv(cfg, s) && InStep(cfg, s, p) && InOrder(cfg, p) && !e.RunCycle?
    ensures TurnKeeps(cfg, s, e, p)
  {
    hide TurnKeeps, InStep, InOrder, Inv, WorkAborted;
    if (e.LookupReturned? || e.LookupThrew?) && s.phase.Lookup? {
      LookupTurn(cfg, s, e, p);
    } else if e.OutcomeJoined? && HandlerIsSettled(s) {
      JoinTurn(cfg, s, e, p);
    } else if e.LeaseGranted? {
      GrantedTurn(cfg, s, p);
    } else if e.RecordReturned? {
      RecordedTurn(cfg, s, p);
    } else if e.LeaseLost? {
      LostTurn(cfg, s, e.lease, p);
    } else if Happens(cfg, s, e) == [] {
      QuietTurn(cfg, s, e, p);
    } else {
      TroubleTurn(cfg, s, e, p);
    }
  }

  lemma TurnKeepsHistory(cfg: Config, s: State, e: Event, h: seq<Happening>)
    requires cfg.Valid() && Inv(cfg, s) && HistoryInv(cfg, s, h)
    ensures HistoryInv(cfg, Next(cfg, s, e), h + Happens(cfg, s, e))
  {
    var g := Happens(cfg, s, e);
    if e.RunCycle? {
      BeginTurn(cfg, s, h);
      assert h + g == h;
    } else {
      TurnIsInStep(cfg, s, e, ProgressOf(h, s.cycle));
      ProgressAdds(h, g, s.cycle);
      SubmittedConcat(h, g);
      hide Next, Happens, InStep, InOrder, ProgressOf, Submitted, Inv;
    }
  }

  lemma {:induction false} HistoryIsInStep(cfg: Config, events: seq<Event>)
    requires cfg.Valid()
    ensures Inv(cfg, Run(cfg, INITIAL, events)) && HistoryInv(cfg, Run(cfg, INITIAL, events), History(cfg, events))
  {
    InitialHolds(cfg);
    RunKeeps(cfg, INITIAL, events);
    if events == [] {
      assert Upto(0) == [];
      hide Inv;
    } else {
      var init, last := events[..|events| - 1], events[|events| - 1];
      HistoryIsInStep(cfg, init);
      hide Inv, HistoryInv, Happens;
      assert events == init + [last];
      RunConcat(cfg, INITIAL, init, [last]);
      OneTurn(cfg, Run(cfg, INITIAL, init), last);
      TurnKeepsHistory(cfg, Run(cfg, INITIAL, init), last, History(cfg, init));
    }
  }

  lemma OneTurn(cfg: Config, s: State, e: Event)
    ensures Run(cfg, s, [e]) == Next(cfg, s, e)
  {
    hide Next;
    assert [e][1..] == [];
  }

  // ----- Main theorems: every interleaving, from start-up

  /**
   Every result built while its own lease was unlost is submitted, exactly once, with
   that lease and in the order the results were built; nothing else is submitted.
   */
  lemma EveryResultIsSubmitted(cfg: Config, events: seq<Event>)
    requires cfg.Valid()
    ensures Run(cfg, INITIAL, events).records == Submitted(History(cfg, events))
  {
    HistoryIsInStep(cfg, events);
  }

  /** A cycle looks its schedules up in order and none twice. */
  lemma SchedulesAreTakenInOrder(cfg: Config, events: seq<Event>)
    requires cfg.Valid()
    ensures var s := Run(cfg, INITIAL, events);
            var looked := Of(History(cfg, events), s.cycle, {Looked});
            |looked| <= |cfg.schedules| && forall i | 0 <= i < |looked| :: looked[i] == i
  {
    HistoryIsInStep(cfg, events);
  }

  /**
   When the loop is at schedule k, each earlier one was looked up, and each that was due
   has had its result. A cycle that leaves the loop without an error and without an
   abort has looked every schedule up and every due one has had its result.
   */
  lemma PassedSchedulesAreSettled(cfg: Config, events: seq<Event>)
    requires cfg.Valid()
    ensures var s, h := Run(cfg, INITIAL, events), History(cfg, events);
            && (s.phase.Lookup? ==>
                  && |Of(h, s.cycle, {Looked})| == s.phase.schedule
                  && Of(h, s.cycle, {Due}) == Of(h, s.cycle, RESULTS))
            && (s.phase == Drain(false) && !WorkAborted(s) ==>
                  && |Of(h, s.cycle, {Looked})| == |cfg.schedules|
                  && Of(h, s.cycle, {Due}) == Of(h, s.cycle, RESULTS))
  {
    hide Inv, Submitted, WorkAborted, Run, History, Of;
    HistoryIsInStep(cfg, events);
  }

  /** A cycle fails exactly when something went wrong in it: a lookup, a handler, a submission or an acquisition. */
  lemma CycleFailsIffTrouble(cfg: Config, events: seq<Event>)
    requires cfg.Valid()
    ensures var s, h := Run(cfg, INITIAL, events), History(cfg, events);
            s.phase.Drain? || s.phase.Exiting? ==> (s.phase.failed <==> Of(h, s.cycle, {Trouble}) != [])
  {
    hide Inv, Submitted, WorkAborted, Run, History, Of;
    HistoryIsInStep(cfg, events);
  }

  /** The worker turns fatal exactly when a cycle with trouble ends, or the drain times out under a running cycle. */
  lemma TurnsFatalIff(cfg: Config, events: seq<Event>, e: Event)
    requires cfg.Valid()
    ensures var s, h := Run(cfg, INITIAL, events), History(cfg, events);
            Next(cfg, s, e).status.Fatal? <==>
              || s.status.Fatal?
              || (e.CycleSettled? && s.phase.Exiting? && Of(h, s.cycle, {Trouble}) != [])
              || (e.ShutdownTimedOut? && s.shutdown.Waiting? && s.activeCycle)
  {
    HistoryIsInStep(cfg, events);
    CycleFailsIffTrouble(cfg, events);
    hide HistoryInv, Of, History, Run;
    FatalTurns(cfg, Run(cfg, INITIAL, events), e);
  }

  lemma FatalTurns(cfg: Config, s: State, e: Event)
    requires Inv(cfg, s)
    ensures Next(cfg, s, e).status.Fatal? <==>
              || s.status.Fatal?
              || (e.CycleSettled? && s.phase == Exiting(true))
              || (e.ShutdownTimedOut? && s.shutdown.Waiting? && s.activeCycle)
  {
    hide LeaseInv, ReleaseInv, HandlerInv, RecordInv, WorkAborted;
  }

  /** A cycle starts exactly when the worker is idle; a shutdown request aborts the work and never leaves it idle. */
  lemma StartsAndStops(cfg: Config, events: seq<Event>)
    requires cfg.Valid()
    ensures var s := Run(cfg, INITIAL, events);
            && (s.status.Idle? <==> Next(cfg, s, RunCycle).cycle == s.cycle + 1 && Next(cfg, s, RunCycle).activeCycle)
            && (!s.status.Idle? ==> Next(cfg, s, RunCycle) == s)
    ensures var s := Run(cfg, INITIAL, events);
            var t := Next(cfg, s, ShutdownRequested);
            && t.aborted && !t.shutdown.NotRequested? && t.activeCycle == s.activeCycle
            && (t.status.Draining? || t.status.Stopped? || t.status.Fatal?)
            && (s.shutdown.NotRequested? && !s.activeCycle && !s.status.Fatal? ==> t.status.Stopped?)
    ensures var s := Run(cfg, INITIAL, events);
            var t := Next(cfg, s, ShutdownSawCycleEnd);
            s.status.Draining? && !s.activeCycle ==> t.status.Stopped? && t.shutdown.Done?
  {
    InitialHolds(cfg);
    RunKeeps(cfg, INITIAL, events);
    hide LeaseInv, ReleaseInv, HandlerInv, RecordInv, WorkAborted;
  }

  ghost predicate RacesUnaborted(s: State) {
    s.phase.Race? && s.phase.handler < |s.handlers| ==> !s.handlers[s.phase.handler].aborted
  }

  lemma {:induction false} RacesAreUnaborted(cfg: Config, s: State, events: seq<Event>)
    requires RacesUnaborted(s)
    ensures RacesUnaborted(Run(cfg, s, events))
    decreases |events|
  {
    if events != [] {
      RaceStaysUnaborted(cfg, s, events[0]);
      hide Next, RacesUnaborted;
      RacesAreUnaborted(cfg, Next(cfg, s, events[0]), events[1..]);
    }
  }

  lemma WorkLoopIsNoRace(cfg: Config)
    ensures forall t: State, k: nat :: !Advance(cfg, t, k).phase.Race?
    ensures forall t: State, failed :: !LeaveWork(t, failed).phase.Race?
    ensures forall t: State, k: nat :: RacesUnaborted(t) ==> RacesUnaborted(AfterRun(cfg, t, k))
  {
    hide WorkAborted, ReleaseFrom;
  }

  lemma RaceStaysUnaborted(cfg: Config, s: State, e: Event)
    requires RacesUnaborted(s)
    ensures RacesUnaborted(Next(cfg, s, e))
  {
    WorkLoopIsNoRace(cfg);
    hide WorkAborted, ReleaseFrom, Advance, LeaveWork, AfterRun;
  }

  /** A raced handler really starts, and settles when it says so; only the end of its race aborts it. */
  lemma RacedHandlersRun(cfg: Config, events: seq<Event>)
    requires cfg.Valid()
    ensures var s := Run(cfg, INITIAL, events);
            s.phase.Race? ==>
              var h := s.phase.handler;
              && h < |s.handlers| && !s.handlers[h].aborted
              && (s.handlers[h].state.Pending? ==> Next(cfg, s, HandlerStarted(h)).handlers[h].state.Active?)
              && (s.handlers[h].state.Active? ==> Next(cfg, s, HandlerSettled(h)).handlers[h].state.Settled?)
              && Next(cfg, s, TimeoutFired).handlers[h].aborted
              && (WorkAborted(s) ==> Next(cfg, s, CallerAborted).handlers[h].aborted)
  {
    InitialHolds(cfg);
    RunKeeps(cfg, INITIAL, events);
    RacesAreUnaborted(cfg, INITIAL, events);
    hide StatusInv, LeaseInv, ReleaseInv, RecordInv, Run, WorkAborted;
  }

  /** Some call threw while the running cycle was taking its leases or giving them back after a refusal. */
  ghost function Threw(cfg: Config, events: seq<Event>): bool {
    if events == [] then false
    else
      var init := events[..|events| - 1];
      ThrewNext(Run(cfg, INITIAL, init), events[|events| - 1], Threw(cfg, init))
  }

  ghost function ThrewNext(s: State, e: Event, threw: bool): bool {
    if e.RunCycle? && s.status.Idle? then false
    else
      || threw
      || (e.AcquireThrew? && s.phase.Acquire?)
      || (e.PartialReleaseThrew? && s.phase.Refuse? && s.base + s.phase.next < |s.leases|)
  }

  ghost predicate ThrewInv(s: State, threw: bool) {
    (s.phase.Acquire? || s.phase.Refuse? ==> !threw) && (s.phase.Cleanup? ==> threw)
  }

  /** A cycle cleans up exactly when a call of its acquisition threw; a mere refusal gives the leases back in peace. */
  lemma {:induction false} CleansUpIffThrew(cfg: Config, events: seq<Event>)
    requires cfg.Valid()
    ensures ThrewInv(Run(cfg, INITIAL, events), Threw(cfg, events))
  {
    if events != [] {
      var init, e := events[..|events| - 1], events[|events| - 1];
      CleansUpIffThrew(cfg, init);
      InitialHolds(cfg);
      RunKeeps(cfg, INITIAL, init);
      assert events == init + [e];
      RunConcat(cfg, INITIAL, init, [e]);
      hide LeaseInv, ReleaseInv, HandlerInv, RecordInv, Next, Run;
      OneTurn(cfg, Run(cfg, INITIAL, init), e);
      ThrewTurn(cfg, Run(cfg, INITIAL, init), e, Threw(cfg, init));
    }
  }

  lemma ThrewTurn(cfg: Config, s: State, e: Event, threw: bool)
    requires StatusInv(s) && ThrewInv(s, threw)
    ensures ThrewInv(Next(cfg, s, e), ThrewNext(s, e, threw))
  {
    hide WorkAborted;
  }

  /** The work is aborted: the worker was told to stop, or a lease of the running cycle was lost. */
  ghost predicate MustStop(s: State) {
    s.aborted || exists l :: s.base <= l < |s.leases| && s.leases[l].lost
  }

  /** A loss is noticed, and once the work is aborted no further schedule is looked up and no handler launched. */
  lemma AbortedWorkStops(cfg: Config, s: State, e: Event)
    ensures e.LeaseLost? && e.lease < |s.leases| ==> Next(cfg, s, e).leases[e.lease].lost
    ensures MustStop(s) && !e.RunCycle? && Next(cfg, s, e).phase != s.phase ==>
              !Next(cfg, s, e).phase.Lookup? && !Next(cfg, s, e).phase.Race?
  {
    assert WorkAborted(s) == MustStop(s);
    if e.LeaseGranted? && s.phase.Acquire? && s.base <= |s.leases| {
      var s1 := s.(leases := s.leases + [Lease(|s.leases| - s.base, s.cycle, false, false)]);
      assert WorkAborted(s) ==> WorkAborted(s1) by {
        if !s.aborted && WorkAborted(s) {
          var l :| s.base <= l < |s.leases| && s.leases[l].lost;
          assert s1.leases[l].lost;
        }
      }
    }
    hide MustStop;
  }

  // ----- Every cycle ends

  /** The event answers what the cycle is waiting for. */
  predicate Answers(s: State, e: Event) {
    match s.phase
    case NoCycle => false
    case Acquire => e.LeaseGranted? || e.LeaseRefused? || e.AcquireThrew?
    case Refuse(_) => e.PartialReleased? || e.PartialReleaseThrew?
    case Cleanup(_) => e.CleanupReleased?
    case Lookup(_) => e.LookupReturned? || e.LookupThrew?
    case Race(_, _) => e.TimeoutFired? || (e.OutcomeJoined? && HandlerIsSettled(s))
    case Join(_, _) => if HandlerIsSettled(s) then e.OutcomeJoined? else e.GraceExpired?
    case Record(_) => e.RecordReturned? || e.RecordThrew?
    case Drain(_) => e.DrainSettled?
    case Exiting(_) => e.CycleSettled?
  }

  /** How many more answers a cycle can take. */
  ghost function Remaining(cfg: Config, s: State): int {
    var held, work := |s.leases| - s.base, 4 * |cfg.schedules| + 3;
    match s.phase
    case NoCycle => 0
    case Exiting(_) => 1
    case Drain(_) => 2
    case Cleanup(next) => 2 + held - next
    case Refuse(next) => 3 + 2 * held - next
    case Lookup(k) => work - 4 * k
    case Race(k, _) => work - 4 * k - 1
    case Join(k, _) => work - 4 * k - 2
    case Record(k) => work - 4 * k - 3
    case Acquire => work + 2 * cfg.sourceCount + (cfg.sourceCount - held)
  }

  lemma AdvanceRemains(cfg: Config, s: State, k: nat)
    requires k <= |cfg.schedules|
    ensures 0 <= Remaining(cfg, Advance(cfg, s, k)) <= 4 * |cfg.schedules| + 3 - 4 * k
    ensures Remaining(cfg, LeaveWork(s, false)) == Remaining(cfg, LeaveWork(s, true)) == 2
  {
    hide WorkAborted;
  }

  lemma LookupAdvances(cfg: Config, s: State, e: Event)
    requires AtWork(cfg, s) && Answers(s, e) && s.phase.Lookup?
    ensures 0 <= Remaining(cfg, Next(cfg, s, e)) < Remaining(cfg, s)
  {
    AdvanceRemains(cfg, s, s.phase.schedule + 1);
    AfterRunRemains(cfg, s);
    hide Advance, WorkAborted, LeaveWork, AfterRun;
  }

  lemma RunAdvances(cfg: Config, s: State, e: Event)
    requires AtWork(cfg, s) && Answers(s, e) && (s.phase.Race? || s.phase.Join?)
    ensures 0 <= Remaining(cfg, Next(cfg, s, e)) < Remaining(cfg, s)
  {
    AdvanceRemains(cfg, s, s.phase.schedule + 1);
    AfterRunRemains(cfg, s);
    hide Advance, WorkAborted, LeaveWork, AfterRun;
  }

  lemma RecordAdvances(cfg: Config, s: State, e: Event)
    requires AtWork(cfg, s) && Answers(s, e) && s.phase.Record?
    ensures 0 <= Remaining(cfg, Next(cfg, s, e)) < Remaining(cfg, s)
  {
    AdvanceRemains(cfg, s, s.phase.schedule + 1);
    hide Advance, WorkAborted, LeaveWork;
  }

  lemma AfterRunRemains(cfg: Config, s: State)
    requires AtWork(cfg, s)
    ensures 0 <= Remaining(cfg, AfterRun(cfg, s, s.phase.schedule)) <= 4 * |cfg.schedules| - 4 * s.phase.schedule
  {
  }

  lemma AcquisitionAdvances(cfg: Config, s: State, e: Event)
    requires cfg.Valid() && Inv(cfg, s) && Answers(s, e) && s.phase.Acquire?
    ensures 0 <= Remaining(cfg, Next(cfg, s, e)) < Remaining(cfg, s)
  {
    LeasesAreWanted(cfg, s);
    var s1 := s.(leases := s.leases + [Lease(|s.leases| - s.base, s.cycle, false, false)]);
    AdvanceRemains(cfg, s1, 0);
    hide Inv, Advance, WorkAborted;
  }

  lemma ReleasesAdvance(cfg: Config, s: State, e: Event)
    requires cfg.Valid() && Inv(cfg, s) && Answers(s, e) && !Working(s.phase) && !s.phase.Acquire?
    ensures 0 <= Remaining(cfg, Next(cfg, s, e)) < Remaining(cfg, s)
  {
    hide StatusInv, ReleaseInv, HandlerInv, RecordInv;
  }

  lemma AnswersAdvance(cfg: Config, s: State, e: Event)
    requires cfg.Valid() && Inv(cfg, s) && Answers(s, e)
    ensures 0 <= Remaining(cfg, Next(cfg, s, e)) < Remaining(cfg, s)
  {
    hide Remaining, Next, Answers;
    if Working(s.phase) {
      WorkingIsAtWork(cfg, s);
      if s.phase.Lookup? {
        LookupAdvances(cfg, s, e);
      } else if s.phase.Record? {
        RecordAdvances(cfg, s, e);
      } else {
        RunAdvances(cfg, s, e);
      }
    } else if s.phase.Acquire? {
      AcquisitionAdvances(cfg, s, e);
    } else {
      ReleasesAdvance(cfg, s, e);
    }
  }

  lemma OthersDoNotDelay(cfg: Config, s: State, e: Event)
    requires cfg.Valid() && Inv(cfg, s) && s.activeCycle && !Answers(s, e)
    ensures Remaining(cfg, Next(cfg, s, e)) <= Remaining(cfg, s)
  {
    hide LeaseInv, ReleaseInv, RecordInv, Advance, WorkAborted, AfterRun;
  }

  ghost function AnswersIn(cfg: Config, s: State, events: seq<Event>): nat
    decreases |events|
  {
    if events == [] then 0
    else (if Answers(s, events[0]) then 1 else 0) + AnswersIn(cfg, Next(cfg, s, events[0]), events[1..])
  }

  /**
   A cycle ends: while it runs it takes no more answers than `Remaining` says, whatever
   else happens in between, so when that many have come it is over.
   */
  lemma {:induction false} EveryCycleEnds(cfg: Config, s: State, events: seq<Event>)
    requires cfg.Valid() && Inv(cfg, s) && s.activeCycle
    requires forall i | 0 <= i <= |events| :: Run(cfg, s, events[..i]).activeCycle
    ensures AnswersIn(cfg, s, events) < Remaining(cfg, s)
    decreases |events|
  {
    if events == [] {
      StillRunning(cfg, s);
    } else {
      var s' := Next(cfg, s, events[0]);
      NextKeeps(cfg, s, events[0]);
      OneTurn(cfg, s, events[0]);
      assert events[..1] == [events[0]];
      forall i | 0 <= i <= |events[1..]| ensures Run(cfg, s', events[1..][..i]).activeCycle {
        assert events[..i + 1] == [events[0]] + events[1..][..i];
        RunConcat(cfg, s, [events[0]], events[1..][..i]);
      }
      EveryCycleEnds(cfg, s', events[1..]);
      if Answers(s, events[0]) { AnswersAdvance(cfg, s, events[0]); } else { OthersDoNotDelay(cfg, s, events[0]); }
    }
  }

  lemma StillRunning(cfg: Config, s: State)
    requires cfg.Valid() && Inv(cfg, s) && s.activeCycle
    ensures Remaining(cfg, s) > 0
  {
    hide ReleaseInv, HandlerInv, RecordInv;
  }
}
