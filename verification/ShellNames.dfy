/**
 When the names of the shell caches change (apps/web/public/sw.js,
 `findOfflineReadyShellCache` and `populateShellCache`). Listing the names, opening one
 and deleting one are separate awaits, so a name may come back after it was
 deleted, and an answer about a cache may outlive its name. The theorems say exactly when.
 */
module ShellNames {
  import opened Wrappers
  import opened ShellCache
  import opened ShellProtocol
  import ShellRepair

  // ----- When looking creates a cache

  /** The check may still fail; after its last path it can only pass. */
  predicate MayFail(p: Phase) { IsCheck(p) && !(p.CheckPaths? && p.todo == []) }

  /** An attempt on its way to the cache it would populate. */
  predicate MayPopulate(p: Phase) {
    || p.ReadNames? || p.Opening? || (MayFail(p) && p.purpose.Look?)
    || p.Dropping? || p.Missing? || p.Emptying? || p.OpenFresh?
  }

  /** A look that listed the installed cache and has not opened it yet. */
  predicate ListedTheShell(p: Phase) {
    || (p.Opening? && p.which.RepairShell? && p.shellListed)
    || (MayFail(p) && p.purpose.Look? && p.purpose.which.RepairShell? && p.purpose.shellListed)
    || (p.Dropping? && p.which.RepairShell? && p.shellListed)
  }

  /** What may still open a name that does not exist: it was listed earlier, or an attempt is to populate it. */
  predicate MayOpen(task: Task, name: Name) {
    || (task.phase.Opening? && task.phase.which == name)
    || (if name.RepairShell? then task.goal.Attempt? && MayPopulate(task.phase) else ListedTheShell(task.phase))
  }

  ghost predicate NobodyMayOpen(s: State, name: Name) {
    forall t | 0 <= t < |s.tasks| :: !MayOpen(s.tasks[t], name)
  }

  /** Requests only look; a call may go on to populate the repair cache. */
  ghost predicate NoNewAttempt(events: seq<Event>, name: Name) {
    name.RepairShell? ==> forall i | 0 <= i < |events| :: !events[i].Call?
  }

  lemma StepOpensNothing(s: State, name: Name, t: nat, current: bool, answer: Option<Response>)
    requires name !in s.names && t < |s.tasks| && !MayOpen(s.tasks[t], name)
    requires s.tasks[t].phase.Emptying? || s.tasks[t].phase.OpenFresh? ==> s.tasks[t].goal.Attempt?
    ensures var (effect, phase) := StepOf(s, s.tasks[t], current, answer);
            name !in Apply(s, effect).names && !MayOpen(s.tasks[t].(phase := phase), name)
  {
    hide Has, Todo, StaticAssets, Storable, Serves;
  }

  lemma NextOpensNothing(s: State, name: Name, e: Event)
    requires Inv(s) && name !in s.names && NobodyMayOpen(s, name) && NoNewAttempt([e], name)
    ensures name !in Next(s, e).names && NobodyMayOpen(Next(s, e), name)
  {
    assert [e][0] == e;
    if e.Step? && e.task < |s.tasks| {
      assert TaskInv(s, e.task);
      StepOpensNothing(s, name, e.task, e.current, e.answer);
      hide StepOf, MayOpen, Inv;
    } else {
      hide Inv, PolicyOf, StepOf;
    }
  }

  lemma {:induction false} RunOpensNothing(s: State, name: Name, events: seq<Event>)
    requires Inv(s) && name !in s.names && NobodyMayOpen(s, name) && NoNewAttempt(events, name)
    ensures name !in Run(s, events).names && NobodyMayOpen(Run(s, events), name)
  {
    hide Inv, Next, NobodyMayOpen;
    if events != [] {
      var init := events[..|events| - 1];
      RunOpensNothing(s, name, init);
      RunKeeps(s, init);
      assert !events[|events| - 1].Call? || name.InstalledShell?;
      NextOpensNothing(Run(s, init), name, events[|events| - 1]);
    }
  }

  /** How far a task still is from opening the name. */
  function Distance(p: Phase): nat {
    match p
    case ReadNames => 8
    case Opening(which, _) => if which.RepairShell? then 7 else 4
    case Dropping(which, _) => if which.RepairShell? then 5 else 3
    case Missing => 2
    case Emptying => 1
    case _ => if IsCheck(p) && p.purpose.Look? then (if p.purpose.which.RepairShell? then 6 else 3) else 0
  }

  /** The loss that makes the next step of a check fail; elsewhere one that changes nothing. */
  function Loss(s: State, p: Phase): Event {
    if p.CheckDocument? then Evict(p.h, HANDLE_MODE_PATH)
    else if p.CheckPaths? && p.todo != [] then Evict(p.h, p.todo[0])
    else Evict(|s.handles|, HANDLE_MODE_PATH)
  }

  lemma LossChangesOneEntry(s: State, t: nat)
    requires t < |s.tasks|
    ensures var p, m := s.tasks[t].phase, Next(s, Loss(s, s.tasks[t].phase));
            && m.tasks == s.tasks && m.names == s.names
            && (p.CheckDocument? ==> HANDLE_MODE_PATH !in ContentOf(m, p.h))
            && (p.CheckPaths? && p.todo != [] ==> !Has(ContentOf(m, p.h), p.todo[0]))
  {
    hide PolicyOf, StepOf, FailOf;
  }

  lemma StepComesNearer(s: State, name: Name, t: nat)
    requires t < |s.tasks| && name !in s.names && MayOpen(s.tasks[t], name)
    requires var p := s.tasks[t].phase;
             && (p.CheckDocument? ==> HANDLE_MODE_PATH !in ContentOf(s, p.h))
             && (p.CheckPaths? && p.todo != [] ==> !Has(ContentOf(s, p.h), p.todo[0]))
    ensures var s' := Next(s, Step(t, true, None));
            name in s'.names
            || (t < |s'.tasks| && MayOpen(s'.tasks[t], name)
                && Distance(s'.tasks[t].phase) < Distance(s.tasks[t].phase))
  {
    hide Has, Todo, StaticAssets, PolicyOf, FillStep, Serves;
  }

  /** A run of losses and steps of that one task. */
  lemma {:induction false} OpensInTheEnd(s: State, name: Name, t: nat) returns (events: seq<Event>)
    requires t < |s.tasks| && name !in s.names && MayOpen(s.tasks[t], name)
    ensures NoNewAttempt(events, name) && name in Run(s, events).names
    decreases Distance(s.tasks[t].phase)
  {
    var loss, step := Loss(s, s.tasks[t].phase), Step(t, true, None);
    var m := Next(Next(s, loss), step);
    LossChangesOneEntry(s, t);
    StepComesNearer(Next(s, loss), name, t);
    hide Next, MayOpen;
    TwoEvents(s, loss, step);
    events := [loss, step];
    if name !in m.names {
      var rest := OpensInTheEnd(m, name, t);
      RunAppend(s, events, rest);
      events := events + rest;
    }
  }

  lemma TwoEvents(s: State, a: Event, b: Event)
    ensures Run(s, [a, b]) == Next(Next(s, a), b)
  {
    hide Next;
    OneEvent(s, a);
    assert [a, b][..1] == [a];
  }

  /**
   A name that does not exist is not created by looking, whatever else happens, exactly
   when nothing may open it any more: no task listed it before it was deleted, and
   no attempt is on its way to populate it.
   */
  lemma LookingCreatesNothingIff(s: State, name: Name)
    requires Inv(s) && name !in s.names
    ensures (forall events | NoNewAttempt(events, name) :: name !in Run(s, events).names) <==> NobodyMayOpen(s, name)
  {
    if NobodyMayOpen(s, name) {
      forall events | NoNewAttempt(events, name) ensures name !in Run(s, events).names {
        RunOpensNothing(s, name, events);
      }
    } else {
      var t :| 0 <= t < |s.tasks| && MayOpen(s.tasks[t], name);
      var events := OpensInTheEnd(s, name, t);
    }
  }

  /** Once no attempt is at work, only a request that is about to open the repair cache can bring its name back. */
  lemma RepairNameStaysAwayIff(s: State)
    requires Inv(s) && RepairShell !in s.names
    requires forall t | 0 <= t < |s.tasks| && s.tasks[t].goal.Attempt? :: IsOver(s.tasks[t].phase)
    ensures (forall events | NoNewAttempt(events, RepairShell) :: RepairShell !in Run(s, events).names)
            <==> (forall t | 0 <= t < |s.tasks| :: !(s.tasks[t].phase.Opening? && s.tasks[t].phase.which.RepairShell?))
  {
    LookingCreatesNothingIff(s, RepairShell);
  }

  // ----- When a name still stands

  /** The event deletes the name: another worker's, or a step of a superseded, replacing or cleaning task. */
  predicate Unnames(s: State, e: Event, name: Name) {
    || e == Drop(name)
    || (e.Step? && e.task < |s.tasks| &&
        var p := s.tasks[e.task].phase;
        || (p.Dropping? && p.which == name)
        || (name.RepairShell? && (p.Emptying? || p.Superseding? || p.Undoing?)))
  }

  ghost predicate KeepsTheName(s: State, events: seq<Event>, name: Name) {
    forall i | 0 <= i < |events| :: !Unnames(Run(s, events[..i]), events[i], name)
  }

  /** A name is taken away by such an event only, and given to new caches only. */
  lemma NextNames(s: State, e: Event, name: Name)
    requires CachesInv(s)
    ensures Unnames(s, e, name) ==> name !in Next(s, e).names
    ensures !Unnames(s, e, name) && name in s.names
            ==> name in Next(s, e).names && Next(s, e).names[name] == s.names[name]
    ensures name in Next(s, e).names ==>
              (name in s.names && Next(s, e).names[name] == s.names[name]) || Next(s, e).names[name] == |s.handles|
    ensures |s.handles| <= |Next(s, e).handles|
  {
    hide PolicyOf, DocumentStep, PathStep, Storable, StaticAssets, Serves, FailOf;
  }

  ghost predicate Stands(s: State, name: Name, h: nat) { name in s.names && s.names[name] == h }

  /** After any run a name still stands for its cache exactly when no event of the run deleted it. */
  lemma {:induction false} NameStandsIff(s: State, name: Name, h: nat, events: seq<Event>)
    requires Inv(s) && Stands(s, name, h)
    ensures Stands(Run(s, events), name, h) <==> KeepsTheName(s, events, name)
    ensures h < |Run(s, events).handles|
  {
    hide Next, Unnames, TaskInv;
    if events != [] {
      var init, last := events[..|events| - 1], events[|events| - 1];
      NameStandsIff(s, name, h, init);
      RunKeeps(s, init);
      NextNames(Run(s, init), last, name);
      KeepsTheNameSplits(s, events, name);
    }
  }

  lemma KeepsTheNameSplits(s: State, events: seq<Event>, name: Name)
    requires events != []
    ensures var init, last := events[..|events| - 1], events[|events| - 1];
            KeepsTheName(s, events, name) <==> KeepsTheName(s, init, name) && !Unnames(Run(s, init), last, name)
  {
    hide Unnames, Run;
    var init := events[..|events| - 1];
    assert forall i | 0 <= i < |init| :: init[..i] == events[..i] && init[i] == events[i];
  }

  /**
   From the moment a cache has its name: a task that passed the check on it, found or
   populated, has it ready under that name exactly when no event deleted the name and
   nothing the check saw was lost.
   */
  lemma PassedIsInPlaceIff(s: State, name: Name, h: nat, events: seq<Event>, t: nat)
    requires Inv(s) && Stands(s, name, h)
    requires var s' := Run(s, events); t < |s'.tasks| && HasPassed(s'.tasks[t].phase) && s'.tasks[t].phase.h == h
    ensures var s' := Run(s, events);
            Stands(s', name, h) && Ready(ContentOf(s', h))
            <==> KeepsTheName(s, events, name) && s'.tasks[t].phase.seen.Keys <= ContentOf(s', h).Keys
  {
    hide Ready, Run, KeepsTheName, GoalInv, AttemptInv, Evidence;
    NameStandsIff(s, name, h, events);
    RunKeeps(s, events);
    var s' := Run(s, events);
    assert TaskInv(s', t);
    ShellRepair.EvidenceIsReadyIff(s', h, s'.tasks[t].phase.seen);
  }
}
