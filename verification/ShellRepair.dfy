/**
 What the shell caches of the service worker promise on every run of `ShellProtocol`:
 what is served, what a passed check means, and how a repair ends.
 */
module ShellRepair {
  import opened Wrappers
  import opened ShellCache
  import opened ShellProtocol

  // ----- What holds on every run

  /**
   Every response served from a shell cache was given to a cache that passed the whole
   readiness check: it is accepted for its path, and where the check looked at the path
   (it looks at every shell path and at every asset the checked document links to) it is
   the very response the check saw.
   */
  lemma ServedResponsesPassedTheCheck(installed: Option<Cache>, repair: Option<Cache>, events: seq<Event>, t: nat)
    requires var s := Run(Start(installed, repair), events); t < |s.tasks| && s.tasks[t].phase.Served?
    ensures var s := Run(Start(installed, repair), events);
            var p, goal := s.tasks[t].phase, s.tasks[t].goal;
            && goal.Request? && p.response.accepted
            && Evidence(s, p.h, p.seen)
            && (goal.key in p.seen ==> p.response == p.seen[goal.key])
            && (goal.key in p.seen <==> IsRequired(p.seen[HANDLE_MODE_PATH], goal.key))
  {
    ReachableInv(installed, repair, events);
    var s := Run(Start(installed, repair), events);
    assert TaskInv(s, t);
  }

  /** Two responses served from one cache for one path are the same, however the run goes. */
  lemma ServedResponsesAgree(installed: Option<Cache>, repair: Option<Cache>, events: seq<Event>, t: nat, u: nat)
    requires var s := Run(Start(installed, repair), events);
             && t < |s.tasks| && u < |s.tasks| && s.tasks[t].phase.Served? && s.tasks[u].phase.Served?
             && s.tasks[t].goal == s.tasks[u].goal && s.tasks[t].phase.h == s.tasks[u].phase.h
    ensures var s := Run(Start(installed, repair), events); s.tasks[t].phase.response == s.tasks[u].phase.response
  {
    ReachableInv(installed, repair, events);
    var s := Run(Start(installed, repair), events);
    assert TaskInv(s, t) && TaskInv(s, u);
  }

  /** At most one attempt is ever at work. */
  lemma AtMostOneRepairInFlight(installed: Option<Cache>, repair: Option<Cache>, events: seq<Event>, t: nat, u: nat)
    requires var s := Run(Start(installed, repair), events);
             t < u < |s.tasks| && s.tasks[t].goal.Attempt? && s.tasks[u].goal.Attempt?
    ensures var s := Run(Start(installed, repair), events); IsOver(s.tasks[t].phase) || IsOver(s.tasks[u].phase)
  {
    ReachableInv(installed, repair, events);
    var s := Run(Start(installed, repair), events);
    assert TaskInv(s, t) && TaskInv(s, u);
  }

  /**
   When an attempt is about to replace the repair cache, the one named so is not ready:
   no stale look outlives a repair.
   */
  lemma ReplacesOnlyUnreadyCaches(installed: Option<Cache>, repair: Option<Cache>, events: seq<Event>, t: nat)
    requires var s := Run(Start(installed, repair), events); t < |s.tasks| && s.tasks[t].phase.Emptying?
    ensures NoReadyRepair(Run(Start(installed, repair), events))
  {
    ReachableInv(installed, repair, events);
    assert TaskInv(Run(Start(installed, repair), events), t);
  }

  lemma EvidenceIsReadyIff(s: State, h: nat, seen: Cache)
    requires CachesInv(s) && Evidence(s, h, seen)
    ensures Ready(s.handles[h].content) <==> seen.Keys <= s.handles[h].content.Keys
  {
    var c := s.handles[h].content;
    assert Within(c, s.handles[h].written);
    if seen.Keys <= c.Keys {
      assert Within(seen, c);
      LessIsEnough(seen, c);
    }
    if Ready(c) {
      assert c[HANDLE_MODE_PATH] == seen[HANDLE_MODE_PATH];
      forall p | p in seen ensures p in c { assert IsRequired(c[HANDLE_MODE_PATH], p); }
    }
  }

  /**
   A cache that passed a check, whether found or populated, is ready from then on
   exactly as long as nothing the check saw is lost; nothing else can spoil it.
   */
  lemma PassedIsReadyIffNothingWasLost(installed: Option<Cache>, repair: Option<Cache>, events: seq<Event>, t: nat)
    requires var s := Run(Start(installed, repair), events); t < |s.tasks| && HasPassed(s.tasks[t].phase)
    ensures var s := Run(Start(installed, repair), events);
            var p := s.tasks[t].phase;
            Ready(ContentOf(s, p.h)) <==> p.seen.Keys <= ContentOf(s, p.h).Keys
  {
    ReachableInv(installed, repair, events);
    var s := Run(Start(installed, repair), events);
    assert TaskInv(s, t);
    EvidenceIsReadyIff(s, s.tasks[t].phase.h, s.tasks[t].phase.seen);
  }

  /** The cache of an attempt that gave up is never the repair cache again. */
  lemma GivenUpCachesAreGone(installed: Option<Cache>, repair: Option<Cache>, events: seq<Event>, t: nat)
    requires var s := Run(Start(installed, repair), events); t < |s.tasks| && s.tasks[t].phase.GaveUp?
    ensures var s := Run(Start(installed, repair), events);
            RepairShell in s.names ==> s.names[RepairShell] != s.tasks[t].phase.h
  {
    ReachableInv(installed, repair, events);
    assert TaskInv(Run(Start(installed, repair), events), t);
  }

  // ----- Runs without loss

  /** Nothing is evicted, no other worker deletes a name, and this worker stays registered. */
  predicate IsQuiet(e: Event) { !e.Evict? && !e.Drop? && (e.Step? ==> e.current) }

  ghost predicate Quiet(events: seq<Event>) { forall i | 0 <= i < |events| :: IsQuiet(events[i]) }

  /** No task is about to delete a name as a superseded worker. */
  ghost predicate Calm(s: State) {
    forall t | 0 <= t < |s.tasks| :: !s.tasks[t].phase.Dropping? && !s.tasks[t].phase.Superseding?
  }

  /** A ready repair cache that no attempt is still populating. */
  ghost predicate Repaired(s: State, h: nat) {
    && RepairShell in s.names && s.names[RepairShell] == h && Ready(ContentOf(s, h))
    && Calm(s)
    && forall t | 0 <= t < |s.tasks| :: !IsPopulating(s.tasks[t].phase) && !s.tasks[t].phase.OpenFresh?
  }

  /** A step of a calm state removes neither the ready repair cache's name nor any of its entries. */
  lemma EffectLeavesRepaired(s: State, h: nat, t: nat, answer: Option<Response>)
    requires Inv(s) && Repaired(s, h) && t < |s.tasks|
    ensures var s' := Apply(s, StepOf(s, s.tasks[t], true, answer).0);
            RepairShell in s'.names && s'.names[RepairShell] == h && ContentOf(s', h) == ContentOf(s, h)
  {
    assert TaskInv(s, t);
    var p := s.tasks[t].phase;
    assert !p.Emptying? && !p.Filling?;
    if p.PruneDocument? {
      BadDocumentIsUnready(s.handles[p.h].content, s.handles[p.h].written);
      assert p.h != h;
    }
    hide Ready, TaskInv, Todo, StaticAssets, DocumentStep, PathStep;
  }

  /** Nor does a task begin to populate: the look that would lead there finds the cache. */
  lemma PhaseLeavesRepaired(s: State, h: nat, t: nat, answer: Option<Response>)
    requires Inv(s) && Repaired(s, h) && t < |s.tasks|
    ensures var p := StepOf(s, s.tasks[t], true, answer).1;
            !IsPopulating(p) && !p.OpenFresh? && !p.Dropping? && !p.Superseding?
  {
    assert TaskInv(s, t);
    assert !s.tasks[t].phase.Emptying?;
    hide Ready, TaskInv, Todo, StaticAssets, Has, Serves;
  }

  lemma StepLeavesRepaired(s: State, h: nat, t: nat, answer: Option<Response>)
    requires Inv(s) && Repaired(s, h) && t < |s.tasks|
    ensures var s' := Next(s, Step(t, true, answer)); Repaired(s', h) && ContentOf(s', h) == ContentOf(s, h)
  {
    EffectLeavesRepaired(s, h, t, answer);
    PhaseLeavesRepaired(s, h, t, answer);
    hide Inv, Ready, StepOf, IsPopulating;
  }

  lemma NextLeavesRepaired(s: State, h: nat, e: Event)
    requires Inv(s) && Repaired(s, h) && IsQuiet(e)
    ensures Repaired(Next(s, e), h) && ContentOf(Next(s, e), h) == ContentOf(s, h)
  {
    if e.Step? {
      if e.task < |s.tasks| {
        hide Inv, Repaired;
        StepLeavesRepaired(s, h, e.task, e.answer);
      }
    } else {
      hide Ready, Inv, PolicyOf;
    }
  }

  /** Once a repaired shell is in place, no number of further calls and requests touches it. */
  lemma {:induction false} ReadyRepairSurvivesFurtherCalls(s: State, h: nat, events: seq<Event>)
    requires Inv(s) && Repaired(s, h) && Quiet(events)
    ensures Repaired(Run(s, events), h) && ContentOf(Run(s, events), h) == ContentOf(s, h)
  {
    hide Inv, Repaired, ContentOf, Next, IsQuiet;
    if events != [] {
      var init := events[..|events| - 1];
      ReadyRepairSurvivesFurtherCalls(s, h, init);
      RunKeeps(s, init);
      assert IsQuiet(events[|events| - 1]);
      NextLeavesRepaired(Run(s, init), h, events[|events| - 1]);
    }
  }

  /** The attempt populates the cache named the repair shell, which lost nothing acceptable so far. */
  ghost predicate UnderWay(s: State, t: nat, h: nat) {
    && t < |s.tasks| && s.tasks[t].goal.Attempt? && Calm(s)
    && IsPopulating(s.tasks[t].phase) && !s.tasks[t].phase.Undoing? && s.tasks[t].phase.h == h
    && InPlace(s, h)
  }

  ghost predicate InPlace(s: State, h: nat) {
    && RepairShell in s.names && s.names[RepairShell] == h && h < |s.handles|
    && forall p | p in s.handles[h].written && s.handles[h].written[p].accepted :: p in s.handles[h].content
  }

  ghost predicate Succeeded(s: State, t: nat, h: nat) {
    t < |s.tasks| && s.tasks[t].phase.Passed? && s.tasks[t].phase.h == h && Repaired(s, h)
  }

  predicate Failed(s: State, t: nat, h: nat) {
    t < |s.tasks| && (s.tasks[t].phase == Undoing(h) || s.tasks[t].phase == GaveUp(h))
  }

  /** A passed cache that lost nothing is ready. */
  lemma InPlaceIsReady(s: State, h: nat, seen: Cache)
    requires CachesInv(s) && InPlace(s, h) && Evidence(s, h, seen)
    ensures Ready(ContentOf(s, h))
  {
    forall p | p in seen ensures p in s.handles[h].content {
      assert IsRequired(seen[HANDLE_MODE_PATH], p);
      assert Has(seen, p);
    }
    EvidenceIsReadyIff(s, h, seen);
  }

  /** The attempt's own step: it goes on, passes with its cache in place, or turns to the cleanup. */
  lemma OwnStepGoesOn(s: State, t: nat, h: nat, answer: Option<Response>)
    requires Inv(s) && UnderWay(s, t, h)
    ensures var s' := Next(s, Step(t, true, answer)); UnderWay(s', t, h) || Succeeded(s', t, h) || Failed(s', t, h)
  {
    hide Ready, IsRequired, PolicyOf, FillsOnce, Todo, StaticAssets, Storable, GoalInv;
    assert TaskInv(s, t);
    var p := s.tasks[t].phase;
    if p.Populated? {
      InPlaceIsReady(s, h, p.seen);
      assert forall u | 0 <= u < |s.tasks| && u != t ::
        !IsPopulating(s.tasks[u].phase) && !s.tasks[u].phase.OpenFresh? by {
        OthersDoNotPopulate(s, t);
      }
    }
    hide Inv, TaskInv;
  }

  /** While one attempt is at work, no other task populates. */
  lemma OthersDoNotPopulate(s: State, t: nat)
    requires Inv(s) && s.slot == Some(t)
    ensures forall u | 0 <= u < |s.tasks| && u != t ::
              var p := s.tasks[u].phase; !IsPopulating(p) && !p.OpenFresh? && !p.Emptying?
  {
    forall u | 0 <= u < |s.tasks| && u != t
      ensures var p := s.tasks[u].phase; !IsPopulating(p) && !p.OpenFresh? && !p.Emptying?
    {
      assert TaskInv(s, u);
      hide PhaseInv;
    }
  }

  /** Steps of requests leave the attempt and its cache alone. */
  lemma OtherStepGoesOn(s: State, t: nat, h: nat, u: nat, answer: Option<Response>)
    requires Inv(s) && UnderWay(s, t, h) && u < |s.tasks| && u != t
    ensures UnderWay(Next(s, Step(u, true, answer)), t, h)
  {
    hide Ready, IsRequired, PolicyOf, FillsOnce, Todo, StaticAssets, Storable, GoalInv, Has;
    assert TaskInv(s, t) && TaskInv(s, u);
    OthersDoNotPopulate(s, t);
    hide Inv, TaskInv, NoReadyRepair;
  }

  lemma NextGoesOn(s: State, t: nat, h: nat, e: Event)
    requires Inv(s) && UnderWay(s, t, h) && IsQuiet(e)
    ensures var s' := Next(s, e); UnderWay(s', t, h) || Succeeded(s', t, h) || Failed(s', t, h)
  {
    if e.Step? && e.task < |s.tasks| {
      hide Inv, UnderWay, Succeeded, Next;
      if e.task == t { OwnStepGoesOn(s, t, h, e.answer); } else { OtherStepGoesOn(s, t, h, e.task, e.answer); }
    } else {
      hide Inv, PolicyOf, StepOf;
    }
  }

  lemma FailedStaysFailed(s: State, t: nat, h: nat, e: Event)
    requires Failed(s, t, h)
    ensures Failed(Next(s, e), t, h)
  {
    hide PolicyOf, DocumentStep, PathStep, FillStep;
  }

  lemma SucceededStays(s: State, t: nat, h: nat, e: Event)
    requires Inv(s) && Succeeded(s, t, h) && IsQuiet(e)
    ensures Succeeded(Next(s, e), t, h)
  {
    NextLeavesRepaired(s, h, e);
    hide Inv, Repaired, PolicyOf, DocumentStep, PathStep, FillStep;
  }

  lemma {:induction false} RepairGoesOn(s: State, t: nat, h: nat, events: seq<Event>)
    requires Inv(s) && UnderWay(s, t, h) && Quiet(events)
    ensures var s' := Run(s, events); UnderWay(s', t, h) || Succeeded(s', t, h) || Failed(s', t, h)
  {
    hide Inv, UnderWay, Succeeded, Failed, Next, IsQuiet;
    if events != [] {
      var init, last := events[..|events| - 1], events[|events| - 1];
      RepairGoesOn(s, t, h, init);
      RunKeeps(s, init);
      var m := Run(s, init);
      assert IsQuiet(events[|events| - 1]);
      if UnderWay(m, t, h) { NextGoesOn(m, t, h, last); }
      if Succeeded(m, t, h) { SucceededStays(m, t, h, last); }
      if Failed(m, t, h) { FailedStaysFailed(m, t, h, last); }
    }
  }

  lemma OpeningBegins(s: State, t: nat, answer: Option<Response>)
    requires Inv(s) && Calm(s) && t < |s.tasks| && s.tasks[t].phase.OpenFresh?
    ensures UnderWay(Next(s, Step(t, true, answer)), t, Opened(s, RepairShell))
  {
    hide Ready, PolicyOf, FillsOnce;
    assert TaskInv(s, t);
  }

  /**
   In every run, from the moment an attempt opens its emptied cache and as long as nothing
   is lost: the attempt that answers true leaves that cache ready under the repair name,
   and the one that gives up leaves it without the name.
   */
  lemma PopulatingEndsReadyOrDeleted(
    installed: Option<Cache>, repair: Option<Cache>, before: seq<Event>, t: nat, answer: Option<Response>,
    after: seq<Event>)
    requires var s := Run(Start(installed, repair), before); t < |s.tasks| && s.tasks[t].phase.OpenFresh? && Calm(s)
    requires Quiet(after)
    ensures var s := Run(Start(installed, repair), before);
            var h := Opened(s, RepairShell);
            var s' := Run(Next(s, Step(t, true, answer)), after);
            && t < |s'.tasks|
            && (s'.tasks[t].phase.Passed?
                ==> RepairShell in s'.names && s'.names[RepairShell] == h && Ready(ContentOf(s', h)))
            && (s'.tasks[t].phase.GaveUp? ==> RepairShell in s'.names ==> s'.names[RepairShell] != h)
            && !s'.tasks[t].phase.NotReady?
  {
    ReachableInv(installed, repair, before);
    var s := Run(Start(installed, repair), before);
    var m, h := Next(s, Step(t, true, answer)), Opened(s, RepairShell);
    OpeningBegins(s, t, answer);
    NextKeeps(s, Step(t, true, answer));
    RepairGoesOn(m, t, h, after);
    RunKeeps(m, after);
    hide Ready, Run, Next;
    assert TaskInv(Run(m, after), t);
  }

  /** It only looks at the installed cache, or it is over. */
  predicate OnlyLooks(p: Phase, h: nat) {
    || p.ReadNames? || (p.Opening? && p.which.InstalledShell?)
    || (IsCheck(p) && p.h == h && p.purpose.Look? && p.purpose.which.InstalledShell?)
    || ((p.Passed? || p.Matching? || p.Served?) && p.h == h) || p.NotReady? || p.Unserved?
  }

  ghost predicate Healthy(s: State, h: nat) {
    && s.names == map[InstalledShell := h] && Ready(ContentOf(s, h))
    && forall t | 0 <= t < |s.tasks| :: OnlyLooks(s.tasks[t].phase, h)
  }

  lemma ReadyHasTheRest(c: Cache, seen: Cache, todo: seq<string>, written: Cache)
    requires Ready(c) && Checked(seen, todo) && Within(seen, written) && Within(c, written)
    ensures HasAll(c, todo)
  {
    assert c[HANDLE_MODE_PATH] == seen[HANDLE_MODE_PATH];
    assert forall p | p in todo :: IsRequired(c[HANDLE_MODE_PATH], p);
  }

  /** A ready cache is never found wanting. */
  lemma ReadyPasses(s: State, h: nat, t: nat)
    requires Inv(s) && Healthy(s, h) && t < |s.tasks|
    ensures var p := s.tasks[t].phase; !p.PruneDocument? && (p.CheckPaths? ==> HasAll(ContentOf(s, h), p.todo))
  {
    hide HasAll, StaticAssets;
    assert TaskInv(s, t);
    var p := s.tasks[t].phase;
    if p.CheckPaths? {
      ReadyHasTheRest(s.handles[h].content, p.seen, p.todo, s.handles[h].written);
    }
  }

  lemma StepStaysHealthy(s: State, h: nat, t: nat, current: bool, answer: Option<Response>)
    requires Inv(s) && Healthy(s, h) && t < |s.tasks|
    ensures Healthy(Next(s, Step(t, current, answer)), h) && Next(s, Step(t, current, answer)).handles == s.handles
  {
    var c := ContentOf(s, h);
    ReadyPasses(s, h, t);
    assert Has(c, HANDLE_MODE_PATH) && StaticAssets(c[HANDLE_MODE_PATH]) != [];
    hide Ready, Inv, Todo, StaticAssets;
  }

  lemma NextStaysHealthy(s: State, h: nat, e: Event)
    requires Inv(s) && Healthy(s, h) && !e.Evict? && !e.Drop?
    ensures Healthy(Next(s, e), h) && Next(s, e).handles == s.handles
  {
    if e.Step? && e.task < |s.tasks| {
      hide Inv, Healthy;
      StepStaysHealthy(s, h, e.task, e.current, e.answer);
    } else {
      hide Inv, Ready, PolicyOf, StepOf;
    }
  }

  /**
   While an installed shell stays ready, no call and no request changes a cache or
   creates one, registered or superseded.
   */
  lemma {:induction false} ReadyShellNeedsNoRepair(installed: Cache, events: seq<Event>)
    requires Ready(installed) && forall i | 0 <= i < |events| :: !events[i].Evict? && !events[i].Drop?
    ensures var s := Run(Start(Some(installed), None), events);
            Healthy(s, 0) && s.handles == [Handle(installed, installed)]
  {
    if events != [] {
      var init, last := events[..|events| - 1], events[|events| - 1];
      ReadyShellNeedsNoRepair(installed, init);
      ReachableInv(Some(installed), None, init);
      hide Inv, Healthy, Next;
      assert last == events[|events| - 1];
      NextStaysHealthy(Run(Start(Some(installed), None), init), 0, last);
    }
  }

  // ----- What a loss during a check does

  function Steps(t: nat, n: nat): (events: seq<Event>)
    ensures |events| == n && forall i | 0 <= i < n :: events[i] == Step(t, true, None)
  {
    seq(n, _ => Step(t, true, None))
  }

  lemma OnePathMore(s: State, t: nat)
    requires t < |s.tasks| && s.tasks[t].phase.CheckPaths? && s.tasks[t].phase.todo != []
    requires Has(ContentOf(s, s.tasks[t].phase.h), s.tasks[t].phase.todo[0])
    ensures var s', p := Next(s, Step(t, true, None)), s.tasks[t].phase;
            && |s'.tasks| == |s.tasks| && s' == To(s, t, s'.tasks[t].phase)
            && s'.tasks[t].phase.CheckPaths?
            && s'.tasks[t].phase == p.(seen := s'.tasks[t].phase.seen, todo := p.todo[1..])
  {
    hide PolicyOf, DocumentStep, FillStep, FailOf;
  }

  /** A check whose remaining paths are all there goes through them, whatever became of the others. */
  lemma {:induction false} CheckGoesThrough(s: State, t: nat, n: nat)
    requires t < |s.tasks| && s.tasks[t].phase.CheckPaths? && n <= |s.tasks[t].phase.todo|
    requires HasAll(ContentOf(s, s.tasks[t].phase.h), s.tasks[t].phase.todo)
    ensures var s', p := Run(s, Steps(t, n)), s.tasks[t].phase;
            && |s'.tasks| == |s.tasks| && s' == To(s, t, s'.tasks[t].phase)
            && s'.tasks[t].phase.CheckPaths?
            && s'.tasks[t].phase == p.(seen := s'.tasks[t].phase.seen, todo := p.todo[n..])
  {
    if n > 0 {
      CheckGoesThrough(s, t, n - 1);
      hide Next;
      var m := Run(s, Steps(t, n - 1));
      assert Steps(t, n)[..n - 1] == Steps(t, n - 1);
      assert Run(s, Steps(t, n)) == Next(m, Step(t, true, None));
      hide Run;
      OnePathMore(m, t);
    }
  }

  /** The rest of an attempt's check on a cache that has all remaining paths, and the answer true. */
  lemma CheckEnds(s: State, t: nat)
    requires t < |s.tasks| && s.tasks[t].phase.CheckPaths? && s.tasks[t].goal.Attempt?
    requires HasAll(ContentOf(s, s.tasks[t].phase.h), s.tasks[t].phase.todo)
    ensures var s', p := Run(s, Steps(t, |s.tasks[t].phase.todo| + 2)), s.tasks[t].phase;
            && s'.handles == s.handles && s'.names == s.names
            && t < |s'.tasks| && s'.tasks[t].phase.Passed? && s'.tasks[t].phase.h == p.h
  {
    hide HasAll, Next, Run;
    var n := |s.tasks[t].phase.todo|;
    CheckGoesThrough(s, t, n);
    TwoSteps(s, t, n);
    CheckThenAnswers(Run(s, Steps(t, n)), t);
  }

  /** A check with nothing left to do passes, and a populated cache is answered for. */
  lemma CheckThenAnswers(s: State, t: nat)
    requires t < |s.tasks| && s.tasks[t].phase.CheckPaths? && s.tasks[t].goal.Attempt? && s.tasks[t].phase.todo == []
    ensures var s', p := Next(Next(s, Step(t, true, None)), Step(t, true, None)), s.tasks[t].phase;
            && s'.handles == s.handles && s'.names == s.names
            && t < |s'.tasks| && s'.tasks[t].phase.Passed? && s'.tasks[t].phase.h == p.h
  {
    hide PolicyOf, DocumentStep, FillStep, FailOf;
    var p := s.tasks[t].phase;
    assert Next(s, Step(t, true, None))
             == To(s, t, if p.purpose.Own? then Populated(p.h, p.seen) else Passed(p.h, p.seen));
  }

  lemma TwoSteps(s: State, t: nat, n: nat)
    ensures Run(s, Steps(t, n + 2)) == Next(Next(Run(s, Steps(t, n)), Step(t, true, None)), Step(t, true, None))
  {
    hide Next;
    assert Steps(t, n + 1)[..n] == Steps(t, n) && Steps(t, n + 2)[..n + 1] == Steps(t, n + 1);
  }

  lemma LossBehindTheCheck(s: State, t: nat, loss: Event)
    requires t < |s.tasks| && s.tasks[t].phase.CheckPaths?
    requires HANDLE_MODE_PATH !in s.tasks[t].phase.todo
             && HasAll(ContentOf(s, s.tasks[t].phase.h), s.tasks[t].phase.todo)
    requires loss == Evict(s.tasks[t].phase.h, HANDLE_MODE_PATH) || loss.Drop?
    ensures var m, h := Next(s, loss), s.tasks[t].phase.h;
            && m.tasks == s.tasks && HasAll(ContentOf(m, h), s.tasks[t].phase.todo)
            && (if loss.Drop? then loss.name !in m.names else !Ready(ContentOf(m, h)))
  {
    hide PolicyOf, StepOf, FailOf, StaticAssets;
  }

  /**
   A check does not notice a loss behind it: after the document was looked at, its
   eviction leaves an unready cache that passes, and the deletion of a name a passed
   cache without it, both when the cache was found and when it was just populated.
   */
  lemma LossBehindTheCheckGoesUnnoticed(s: State, t: nat, loss: Event)
    requires t < |s.tasks| && s.tasks[t].phase.CheckPaths? && s.tasks[t].goal.Attempt?
    requires HANDLE_MODE_PATH !in s.tasks[t].phase.todo
             && HasAll(ContentOf(s, s.tasks[t].phase.h), s.tasks[t].phase.todo)
    requires loss == Evict(s.tasks[t].phase.h, HANDLE_MODE_PATH) || loss.Drop?
    ensures var h := s.tasks[t].phase.h;
            var s' := Run(s, [loss] + Steps(t, |s.tasks[t].phase.todo| + 2));
            && t < |s'.tasks| && s'.tasks[t].phase.Passed? && s'.tasks[t].phase.h == h
            && (if loss.Drop? then loss.name !in s'.names else !Ready(ContentOf(s', h)))
  {
    hide HasAll, Ready, Next;
    LossBehindTheCheck(s, t, loss);
    OneEvent(s, loss);
    RunAppend(s, [loss], Steps(t, |s.tasks[t].phase.todo| + 2));
    CheckEnds(Next(s, loss), t);
  }

  lemma FourEvents(s: State, a: Event, b: Event, c: Event, d: Event)
    ensures Run(s, [a, b, c, d]) == Next(Next(Next(Next(s, a), b), c), d)
  {
    hide Next;
    assert [a, b, c, d][..3] == [a, b, c] && [a, b, c][..2] == [a, b] && [a, b][..1] == [a];
    OneEvent(s, a);
    assert Run(s, [a, b]) == Next(Run(s, [a]), b);
    assert Run(s, [a, b, c]) == Next(Run(s, [a, b]), c);
  }

  /** A call looks the document of a ready installed shell up. */
  lemma LookBegins(installed: Cache)
    requires Ready(installed)
    ensures var step, s, document := Step(0, true, None), Start(Some(installed), None), installed[HANDLE_MODE_PATH];
            var p := CheckPaths(0, Look(InstalledShell, true), map[HANDLE_MODE_PATH := document], Todo(document));
            Next(Next(Next(Next(s, Call), step), step), step) == s.(slot := Some(0), tasks := [Task(Attempt, p)])
  {
    var step, s := Step(0, true, None), Start(Some(installed), None);
    var document := installed[HANDLE_MODE_PATH];
    assert document.accepted && StaticAssets(document) != [];
    hide Ready, Todo, StaticAssets, PolicyOf, PathStep, FillStep, FailOf;
    assert Next(s, Call) == s.(slot := Some(0), tasks := [Task(Attempt, ReadNames)]);
    assert Next(Next(s, Call), step) == s.(slot := Some(0), tasks := [Task(Attempt, Opening(InstalledShell, true))]);
    assert Next(Next(Next(s, Call), step), step)
        == s.(slot := Some(0), tasks := [Task(Attempt, CheckDocument(0, Look(InstalledShell, true)))]);
  }

  lemma CheckIsReached(installed: Cache) returns (events: seq<Event>)
    requires Ready(installed)
    ensures var s := Run(Start(Some(installed), None), events);
            && |s.tasks| == 1 && s.tasks[0].goal.Attempt? && s.tasks[0].phase.CheckPaths? && s.tasks[0].phase.h == 0
            && HANDLE_MODE_PATH !in s.tasks[0].phase.todo && HasAll(ContentOf(s, 0), s.tasks[0].phase.todo)
  {
    ReadyHasTodo(installed);
    LookBegins(installed);
    hide HasAll, Ready, Next, Run, Todo, StaticAssets;
    var step := Step(0, true, None);
    events := [Call, step, step, step];
    FourEvents(Start(Some(installed), None), Call, step, step, step);
  }

  /** The run in which the installed shell loses its document behind the check. */
  lemma PassedCacheCanBeUnready(installed: Cache) returns (events: seq<Event>)
    requires Ready(installed)
    ensures var s := Run(Start(Some(installed), None), events);
            0 < |s.tasks| && s.tasks[0].phase.Passed? && s.tasks[0].phase.h == 0 && !Ready(ContentOf(s, 0))
  {
    hide *;
    var begin := CheckIsReached(installed);
    var s := Run(Start(Some(installed), None), begin);
    var end := [Evict(0, HANDLE_MODE_PATH)] + Steps(0, |s.tasks[0].phase.todo| + 2);
    RunAppend(Start(Some(installed), None), begin, end);
    LossBehindTheCheckGoesUnnoticed(s, 0, Evict(0, HANDLE_MODE_PATH));
    events := begin + end;
  }

  lemma ReadyHasTodo(c: Cache)
    requires Ready(c)
    ensures HasAll(c, Todo(c[HANDLE_MODE_PATH])) && HANDLE_MODE_PATH !in Todo(c[HANDLE_MODE_PATH])
  {
    var todo := Todo(c[HANDLE_MODE_PATH]);
    forall p | p in todo ensures Has(c, p) && p != HANDLE_MODE_PATH {
      ShellPathsSplit(p);
      ShellPathsAreDistinct();
      assert APP_SHELL_PATHS[0] == HANDLE_MODE_PATH;
      ShellPathsAreNotStatic(APP_SHELL_PATHS[0]);
    }
  }

  lemma DocumentPolicy()
    ensures PolicyOf(HANDLE_MODE_PATH).Shell?
  {
    ShellPathsAreDistinct();
    assert APP_SHELL_PATHS[0] == HANDLE_MODE_PATH;
    ShellPathsAreNotStatic(APP_SHELL_PATHS[0]);
  }

  const READER := Step(0, true, None)
  const REPAIRER := Step(1, true, None)

  /** A request and an attempt list the empty repair cache; the attempt finds it unready and deletes the name. */
  lemma RaceBegins()
    ensures var s := Start(None, Some(map[]));
            var m := Next(Next(Next(Next(s, Turn(HANDLE_MODE_PATH)), READER), Call), REPAIRER);
            var p := Opening(RepairShell, false);
            m == s.(slot := Some(1), tasks := [Task(Request(HANDLE_MODE_PATH), p), Task(Attempt, p)])
  {
    DocumentPolicy();
    hide PolicyOf, DocumentStep, PathStep, FillStep, FailOf;
    var s := Start(None, Some(map[]));
    var request := Task(Request(HANDLE_MODE_PATH), Opening(RepairShell, false));
    var s1 := Next(s, Turn(HANDLE_MODE_PATH));
    assert s1 == s.(tasks := [Task(Request(HANDLE_MODE_PATH), ReadNames)]);
    var s2 := Next(s1, READER);
    assert s2 == s.(tasks := [request]);
    var s3 := Next(s2, Call);
    assert s3 == s.(slot := Some(1), tasks := [request, Task(Attempt, ReadNames)]);
  }

  lemma RaceDeletes(s: State)
    requires |s.handles| == 1 && s.handles[0].content == map[] && s.names == map[RepairShell := 0]
    requires |s.tasks| == 2 && s.tasks[1] == Task(Attempt, Opening(RepairShell, false))
    ensures Next(Next(Next(Next(s, REPAIRER), REPAIRER), REPAIRER), REPAIRER) == To(s, 1, OpenFresh).(names := map[])
  {
    hide PolicyOf, PathStep, FillStep, FailOf, StaticAssets, Todo;
    assert Next(s, REPAIRER) == To(s, 1, CheckDocument(0, Look(RepairShell, false)));
    assert Next(Next(s, REPAIRER), REPAIRER) == To(s, 1, Missing);
    assert Next(Next(Next(s, REPAIRER), REPAIRER), REPAIRER) == To(s, 1, Emptying);
  }

  lemma RaceEnds(s: State)
    requires |s.handles| == 1 && s.names == map[]
    requires |s.tasks| == 2 && s.tasks[0].phase == Opening(RepairShell, false) && s.tasks[1] == Task(Attempt, OpenFresh)
    ensures var s' := Next(Next(Next(Next(s, REPAIRER), REPAIRER), REPAIRER), READER);
            && |s'.tasks| == 2 && s'.tasks[1].phase.GaveUp?
            && RepairShell in s'.names && ContentOf(s', s'.names[RepairShell]) == map[]
  {
    hide PolicyOf, PathStep, DocumentStep, FailOf, StaticAssets, Todo;
    var s1 := Next(s, REPAIRER);
    assert s1.tasks == s.tasks[1 := Task(Attempt, Filling(1, APP_SHELL_PATHS))];
    var s2 := Next(s1, REPAIRER);
    assert s2.tasks == s.tasks[1 := Task(Attempt, Undoing(1))];
    var s3 := Next(s2, REPAIRER);
    assert s3.tasks == s.tasks[1 := Task(Attempt, GaveUp(1))] && s3.names == map[];
  }

  /**
   A request that listed the repair name before a failing attempt deleted it creates the
   name again: the run ends with an empty repair cache although the attempt gave up.
   */
  lemma FailedRepairCanLeaveAnEmptyCache() returns (events: seq<Event>)
    ensures var s := Run(Start(None, Some(map[])), events);
            && 1 < |s.tasks| && s.tasks[1].phase.GaveUp?
            && RepairShell in s.names && ContentOf(s, s.names[RepairShell]) == map[]
  {
    var s := Start(None, Some(map[]));
    var a := [Turn(HANDLE_MODE_PATH), READER, Call, REPAIRER];
    var b, c := [REPAIRER, REPAIRER, REPAIRER, REPAIRER], [REPAIRER, REPAIRER, REPAIRER, READER];
    RaceBegins();
    hide Next, Run;
    FourEvents(s, Turn(HANDLE_MODE_PATH), READER, Call, REPAIRER);
    RaceDeletes(Run(s, a));
    FourEvents(Run(s, a), REPAIRER, REPAIRER, REPAIRER, REPAIRER);
    RaceEnds(Run(Run(s, a), b));
    FourEvents(Run(Run(s, a), b), REPAIRER, REPAIRER, REPAIRER, READER);
    RunAppend(s, a, b);
    RunAppend(s, a + b, c);
    events := a + b + c;
  }
}
