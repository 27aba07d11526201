/**
 The shell caches of the service worker in every interleaving
 (apps/web/public/sw.js: `findOfflineReadyShellCache`, `handleModeOfflineReady`,
 `populateShellCache`, `ensureHandleModeOfflineReady`, and the cache halves of
 `cacheFirst`, `networkFirst` and `verifiedBootstrapFirst`).

 One step runs from one await to the next, so a readiness check takes one step for
 every path it looks up. A cache and its name are two things: deleting a name leaves
 the cache usable for whoever opened it, and opening a missing name creates an empty
 cache. Entries may be evicted and names deleted by others at any time; whether
 the worker is still the registered one may change at any time. Looking up, opening,
 fetching and storing may fail at any time; deleting a name does not fail.
 */
module ShellProtocol {
  import opened Wrappers
  import opened ShellCache

  datatype Name = InstalledShell | RepairShell

  /** `written` is the history of the cache: every answer it was ever given. */
  datatype Handle = Handle(content: Cache, written: Cache)

  datatype Goal = Attempt | Request(key: string)

  /** Why a cache is checked: found under a name, or just populated. */
  datatype Purpose = Look(which: Name, shellListed: bool) | Own

  datatype Phase =
    | ReadNames
    | Opening(which: Name, shellListed: bool)
    | CheckDocument(h: nat, purpose: Purpose)
    | PruneDocument(h: nat, purpose: Purpose)
    | CheckPaths(h: nat, purpose: Purpose, seen: Cache, todo: seq<string>)
    | Dropping(which: Name, shellListed: bool)
    | Missing
    | Emptying
    | OpenFresh
    | Filling(h: nat, todo: seq<string>)
    | Populated(h: nat, seen: Cache)
    | Superseding(h: nat)
    | Undoing(h: nat)
    | Passed(h: nat, seen: Cache)
    | GaveUp(h: nat)
    | NotReady
    | Matching(h: nat, seen: Cache)
    | Served(h: nat, seen: Cache, response: Response)
    | Unserved

  datatype Task = Task(goal: Goal, phase: Phase)

  /** `slot` is `repairInFlight`; its tasks are all repair attempts and all requests that turned to the caches. */
  datatype State = State(handles: seq<Handle>, names: map<Name, nat>, slot: Option<nat>, tasks: seq<Task>)

  datatype Event =
    | Call
    | Turn(key: string)
    | Step(task: nat, current: bool, answer: Option<Response>)
    | Fail(task: nat)
    | Clear(task: nat)
    | Evict(h: nat, path: string)
    | Drop(name: Name)

  // ----- Requests

  datatype Policy = Bypass | Bootstrap | Immutable | Shell

  /** The policy of a same-origin GET request without a query. */
  function PolicyOf(path: string): Policy {
    if path == APP_SHELL_PATHS[4] then Bootstrap
    else if STATIC_PREFIX <= path || path in APP_SHELL_PATHS[2..4] then Immutable
    else if path in APP_SHELL_PATHS then Shell
    else Bypass
  }

  /** An immutable answer is checked once more before it is served. */
  predicate Serves(key: string, c: Cache) {
    key in c && (PolicyOf(key).Immutable? ==> c[key].accepted)
  }

  // ----- What a step does to the caches

  datatype Effect =
    | Nothing
    | Open(name: Name)
    | Unname(name: Name)
    | Lose(h: nat, path: string)
    | Put(h: nat, path: string, response: Response)

  function Opened(s: State, name: Name): nat {
    if name in s.names then s.names[name] else |s.handles|
  }

  function Apply(s: State, effect: Effect): State {
    match effect
    case Nothing => s
    case Open(name) =>
      if name in s.names then s
      else s.(handles := s.handles + [Handle(map[], map[])], names := s.names[name := |s.handles|])
    case Unname(name) => s.(names := s.names - {name})
    case Lose(h, path) =>
      if h < |s.handles| then s.(handles := s.handles[h := s.handles[h].(content := s.handles[h].content - {path})])
        else s
    case Put(h, path, response) =>
      if h < |s.handles| then
        s.(handles := s.handles[h := Handle(s.handles[h].content[path := response],
                                            s.handles[h].written[path := response])])
      else s
  }

  // ----- The steps of a task

  /** The paths checked after the document: the other shell paths, its assets, the bootstrap. */
  function Todo(document: Response): seq<string> {
    APP_SHELL_PATHS[1..4] + StaticAssets(document) + [APP_SHELL_PATHS[4]]
  }

  function Onward(which: Name, shellListed: bool): Phase {
    if which.RepairShell? && shellListed then Opening(InstalledShell, true) else Missing
  }

  function AfterFailure(purpose: Purpose, h: nat, current: bool): Phase {
    match purpose
    case Own => Undoing(h)
    case Look(which, shellListed) => if current then Onward(which, shellListed) else Dropping(which, shellListed)
  }

  function AfterSuccess(goal: Goal, purpose: Purpose, h: nat, seen: Cache): Phase {
    if purpose.Own? then Populated(h, seen) else if goal.Attempt? then Passed(h, seen) else Matching(h, seen)
  }

  function DocumentStep(c: Cache, h: nat, purpose: Purpose, current: bool): Phase {
    if HANDLE_MODE_PATH !in c then AfterFailure(purpose, h, current)
    else if !c[HANDLE_MODE_PATH].accepted then PruneDocument(h, purpose)
    else if StaticAssets(c[HANDLE_MODE_PATH]) == [] then AfterFailure(purpose, h, current)
    else CheckPaths(h, purpose, map[HANDLE_MODE_PATH := c[HANDLE_MODE_PATH]], Todo(c[HANDLE_MODE_PATH]))
  }

  function PathStep(goal: Goal, c: Cache, p: Phase, current: bool): Phase
    requires p.CheckPaths?
  {
    if p.todo == [] then AfterSuccess(goal, p.purpose, p.h, p.seen)
    else if Has(c, p.todo[0]) then p.(seen := p.seen[p.todo[0] := c[p.todo[0]]], todo := p.todo[1..])
    else AfterFailure(p.purpose, p.h, current)
  }

  /** A fetched answer that may be stored, the document only with a fitting set of assets. */
  predicate Storable(path: string, answer: Option<Response>) {
    && answer.Some? && answer.value.accepted
    && (path == HANDLE_MODE_PATH ==> AssetCountFits(|StaticAssets(answer.value)|))
  }

  function FillStep(p: Phase, answer: Option<Response>): (Effect, Phase)
    requires p.Filling?
  {
    if p.todo == [] then (Nothing, CheckDocument(p.h, Own))
    else if !Storable(p.todo[0], answer) then (Nothing, Undoing(p.h))
    else
      var assets := if p.todo[0] == HANDLE_MODE_PATH then StaticAssets(answer.value) else [];
      (Put(p.h, p.todo[0], answer.value), Filling(p.h, p.todo[1..] + assets))
  }

  function ContentOf(s: State, h: nat): Cache { if h < |s.handles| then s.handles[h].content else map[] }

  function StepOf(s: State, task: Task, current: bool, answer: Option<Response>): (Effect, Phase) {
    var p := task.phase;
    match p
    case ReadNames =>
      (Nothing, if RepairShell in s.names then Opening(RepairShell, InstalledShell in s.names)
                else if InstalledShell in s.names then Opening(InstalledShell, true) else Missing)
    case Opening(which, listed) => (Open(which), CheckDocument(Opened(s, which), Look(which, listed)))
    case CheckDocument(h, purpose) => (Nothing, DocumentStep(ContentOf(s, h), h, purpose, current))
    case PruneDocument(h, purpose) => (Lose(h, HANDLE_MODE_PATH), AfterFailure(purpose, h, current))
    case CheckPaths(h, _, _, _) => (Nothing, PathStep(task.goal, ContentOf(s, h), p, current))
    case Dropping(which, listed) => (Unname(which), Onward(which, listed))
    case Missing => (Nothing, if task.goal.Request? then Unserved else if current then Emptying else NotReady)
    case Emptying => (Unname(RepairShell), OpenFresh)
    case OpenFresh => (Open(RepairShell), Filling(Opened(s, RepairShell), APP_SHELL_PATHS))
    case Filling(_, _) => FillStep(p, answer)
    case Populated(h, seen) => (Nothing, if current then Passed(h, seen) else Superseding(h))
    case Superseding(h) => (Unname(RepairShell), GaveUp(h))
    case Undoing(h) => (Unname(RepairShell), GaveUp(h))
    case Matching(h, seen) =>
      var c := ContentOf(s, h);
      (Nothing,
       if task.goal.Request? && Serves(task.goal.key, c) then Served(h, seen, c[task.goal.key]) else Unserved)
    case _ => (Nothing, p)
  }

  predicate IsOver(p: Phase) { p.Passed? || p.GaveUp? || p.NotReady? || p.Served? || p.Unserved? }

  /** The caches a task relies on after a whole check. */
  predicate HasPassed(p: Phase) { p.Populated? || p.Passed? || p.Matching? || p.Served? }

  predicate IsCheck(p: Phase) { p.CheckDocument? || p.PruneDocument? || p.CheckPaths? }

  /** The cache this phase populates, from the first fetch to the verdict. */
  predicate IsPopulating(p: Phase) {
    || p.Filling? || p.Populated? || p.Superseding? || p.Undoing?
    || (IsCheck(p) && p.purpose.Own?)
  }

  /** Whatever rejects while populating leads to the cleanup. */
  function FailOf(task: Task): Phase {
    var p := task.phase;
    if IsOver(p) || p.Undoing? || p.Superseding? || p.Populated? then p
    else if IsPopulating(p) then Undoing(p.h)
    else if task.goal.Attempt? then NotReady
    else Unserved
  }

  function To(s: State, t: nat, phase: Phase): State
    requires t < |s.tasks|
  {
    s.(tasks := s.tasks[t := s.tasks[t].(phase := phase)])
  }

  function Next(s: State, e: Event): State {
    match e
    case Call =>
      if s.slot.Some? then s else s.(slot := Some(|s.tasks|), tasks := s.tasks + [Task(Attempt, ReadNames)])
    case Turn(key) =>
      if PolicyOf(key).Bypass? then s else s.(tasks := s.tasks + [Task(Request(key), ReadNames)])
    case Step(t, current, answer) =>
      if t < |s.tasks| then
        var (effect, phase) := StepOf(s, s.tasks[t], current, answer);
        To(Apply(s, effect), t, phase)
      else s
    case Fail(t) => if t < |s.tasks| then To(s, t, FailOf(s.tasks[t])) else s
    case Clear(t) => if t < |s.tasks| && IsOver(s.tasks[t].phase) && s.slot == Some(t) then s.(slot := None) else s
    case Evict(h, path) => Apply(s, Lose(h, path))
    case Drop(name) => Apply(s, Unname(name))
  }

  function Run(s: State, events: seq<Event>): State {
    if events == [] then s else Next(Run(s, events[..|events| - 1]), events[|events| - 1])
  }

  lemma {:induction false} RunAppend(s: State, a: seq<Event>, b: seq<Event>)
    ensures Run(s, a + b) == Run(Run(s, a), b)
  {
    hide Next;
    if b == [] {
      assert a + b == a;
    } else {
      assert (a + b)[..|a + b| - 1] == a + b[..|b| - 1];
      RunAppend(s, a, b[..|b| - 1]);
    }
  }

  lemma OneEvent(s: State, e: Event)
    ensures Run(s, [e]) == Next(s, e)
  {
    hide Next;
    assert Run(s, [e][..0]) == s;
  }

  /** The caches as an earlier run of the worker left them, whatever they hold. */
  function Start(installed: Option<Cache>, repair: Option<Cache>): State {
    var one := if installed.Some? then [Handle(installed.value, installed.value)] else [];
    var two := if repair.Some? then one + [Handle(repair.value, repair.value)] else one;
    var names := if installed.Some? then map[InstalledShell := 0] else map[];
    State(two, if repair.Some? then names[RepairShell := |one|] else names, None, [])
  }

  // ----- Invariant

  ghost predicate Within(part: Cache, whole: Cache) {
    forall p | p in part :: p in whole && part[p] == whole[p]
  }

  predicate IsRequired(document: Response, path: string) {
    path in APP_SHELL_PATHS || path in StaticAssets(document)
  }

  /** A check sees required paths only, all accepted, and the others are still to do. */
  ghost predicate Checked(seen: Cache, todo: seq<string>) {
    && Has(seen, HANDLE_MODE_PATH) && StaticAssets(seen[HANDLE_MODE_PATH]) != []
    && (forall p | p in seen :: seen[p].accepted && IsRequired(seen[HANDLE_MODE_PATH], p))
    && (forall p | IsRequired(seen[HANDLE_MODE_PATH], p) :: p in seen || p in todo)
    && (forall p | p in todo :: IsRequired(seen[HANDLE_MODE_PATH], p))
  }

  /** A cache that passed the whole check: `seen` is what the check looked at, path by path. */
  ghost predicate Evidence(s: State, h: nat, seen: Cache) {
    && h < |s.handles|
    && Within(seen, s.handles[h].written)
    && Ready(seen) && forall p | p in seen :: IsRequired(seen[HANDLE_MODE_PATH], p)
  }

  /** Every path of a cache is fetched once; only the document can add further paths. */
  ghost predicate FillsOnce(written: Cache, todo: seq<string>) {
    && Distinct(todo)
    && (forall p | p in todo :: p !in written)
    && (HANDLE_MODE_PATH in todo ==> todo == APP_SHELL_PATHS && written == map[])
  }

  predicate NoReadyRepair(s: State) {
    RepairShell in s.names ==> !Ready(ContentOf(s, s.names[RepairShell]))
  }

  ghost predicate PhaseInv(s: State, p: Phase) {
    match p
    case CheckDocument(h, _) => h < |s.handles|
    case PruneDocument(h, _) =>
      && h < |s.handles|
      && HANDLE_MODE_PATH in s.handles[h].written && !s.handles[h].written[HANDLE_MODE_PATH].accepted
    case CheckPaths(h, _, seen, todo) => h < |s.handles| && Within(seen, s.handles[h].written) && Checked(seen, todo)
    case OpenFresh =>
      RepairShell in s.names ==>
        Opened(s, RepairShell) < |s.handles| && s.handles[Opened(s, RepairShell)].written == map[]
    case Filling(h, todo) => h < |s.handles| && FillsOnce(s.handles[h].written, todo)
    case Undoing(h) => h < |s.handles|
    case Superseding(h) => h < |s.handles|
    case GaveUp(h) => h < |s.handles| && (RepairShell in s.names ==> s.names[RepairShell] != h)
    case Populated(h, seen) => Evidence(s, h, seen)
    case Passed(h, seen) => Evidence(s, h, seen)
    case Matching(h, seen) => Evidence(s, h, seen)
    case Served(h, seen, _) => Evidence(s, h, seen)
    case _ => true
  }

  /** A served response is one that its cache was given, and it is accepted. */
  ghost predicate GoalInv(s: State, task: Task) {
    match task.goal
    case Attempt => !task.phase.Matching? && !task.phase.Served? && !task.phase.Unserved?
    case Request(key) =>
      && !PolicyOf(key).Bypass?
      && !IsPopulating(task.phase) && !task.phase.Emptying? && !task.phase.OpenFresh?
      && !task.phase.Passed? && !task.phase.GaveUp? && !task.phase.NotReady?
      && (task.phase.Served? && task.phase.h < |s.handles| ==>
            var written := s.handles[task.phase.h].written;
            key in written && written[key] == task.phase.response && task.phase.response.accepted)
  }

  /** The attempt has looked at the repair cache and is about to replace it. */
  predicate PastTheRepairCheck(p: Phase) {
    || (p.Opening? && p.which.InstalledShell?)
    || (IsCheck(p) && p.purpose.Look? && p.purpose.which.InstalledShell?)
    || p.Dropping? || p.Missing? || p.Emptying?
  }

  predicate LooksAtRepair(p: Phase) {
    IsCheck(p) && p.purpose.Look? && p.purpose.which.RepairShell?
  }

  /** No stale look: what is named the repair cache is the one looked at, or it is not ready. */
  ghost predicate AttemptInv(s: State, t: nat)
    requires t < |s.tasks|
  {
    var p := s.tasks[t].phase;
    s.tasks[t].goal.Attempt? && !IsOver(p) ==>
      && s.slot == Some(t)
      && (PastTheRepairCheck(p) ==> NoReadyRepair(s))
      && (LooksAtRepair(p) ==> NoReadyRepair(s) || Opened(s, RepairShell) == p.h)
  }

  ghost predicate TaskInv(s: State, t: nat)
    requires t < |s.tasks|
  {
    PhaseInv(s, s.tasks[t].phase) && GoalInv(s, s.tasks[t]) && AttemptInv(s, t)
  }

  ghost predicate CachesInv(s: State) {
    && (forall name | name in s.names :: s.names[name] < |s.handles|)
    && (forall h | 0 <= h < |s.handles| :: Within(s.handles[h].content, s.handles[h].written))
  }

  ghost predicate Inv(s: State) {
    && CachesInv(s)
    && (s.slot.Some? ==> s.slot.value < |s.tasks|)
    && (forall t | 0 <= t < |s.tasks| :: TaskInv(s, t))
  }

  // ----- Caches only lose entries, except by a put

  lemma LessIsEnough(less: Cache, more: Cache)
    requires Ready(less) && Within(less, more)
    ensures Ready(more)
  {
  }

  /** Names are removed or given to new empty caches, entries are lost, and no history changes. */
  ghost predicate Milder(s: State, s': State) {
    && s'.slot == s.slot
    && |s.handles| <= |s'.handles|
    && (forall h | 0 <= h < |s.handles| ::
          s'.handles[h].written == s.handles[h].written && Within(s'.handles[h].content, s.handles[h].content))
    && (forall h | |s.handles| <= h < |s'.handles| :: s'.handles[h] == Handle(map[], map[]))
    && (forall name | name in s'.names :: s'.names[name] < |s'.handles|)
    && (forall name | name in s'.names ::
          s'.names[name] >= |s.handles| || (name in s.names && s.names[name] == s'.names[name]))
  }

  lemma ApplyIsMilder(s: State, effect: Effect)
    requires CachesInv(s) && !effect.Put?
    ensures Milder(s, Apply(s, effect)) && CachesInv(Apply(s, effect))
  {
  }

  lemma MilderKeepsNoReadyRepair(s: State, s': State)
    requires CachesInv(s) && Milder(s, s') && NoReadyRepair(s)
    ensures NoReadyRepair(s')
  {
    if RepairShell in s'.names && Ready(ContentOf(s', s'.names[RepairShell])) {
      var h := s'.names[RepairShell];
      if h < |s.handles| {
        LessIsEnough(s'.handles[h].content, s.handles[h].content);
      }
    }
  }

  lemma MilderKeepsPhase(s: State, s': State, p: Phase)
    requires CachesInv(s) && Milder(s, s') && PhaseInv(s, p)
    ensures PhaseInv(s', p)
  {
    hide Ready, Checked, FillsOnce, Within;
  }

  lemma MilderKeepsTask(s: State, s': State, t: nat)
    requires CachesInv(s) && Milder(s, s') && t < |s.tasks| && TaskInv(s, t)
    requires t < |s'.tasks| && s'.tasks[t] == s.tasks[t]
    ensures TaskInv(s', t)
  {
    MilderKeepsPhase(s, s', s.tasks[t].phase);
    if NoReadyRepair(s) {
      MilderKeepsNoReadyRepair(s, s');
    }
    hide NoReadyRepair, PolicyOf, IsPopulating, PastTheRepairCheck;
    assert !NoReadyRepair(s) && LooksAtRepair(s.tasks[t].phase) && s.tasks[t].goal.Attempt? ==>
        NoReadyRepair(s') || Opened(s', RepairShell) == s.tasks[t].phase.h by {
      if !NoReadyRepair(s) && !NoReadyRepair(s') { NamedTheSame(s, s'); }
    }
  }

  lemma NamedTheSame(s: State, s': State)
    requires CachesInv(s) && Milder(s, s') && !NoReadyRepair(s) && !NoReadyRepair(s')
    ensures Opened(s', RepairShell) == Opened(s, RepairShell)
  {
  }

  lemma PutKeepsTask(s: State, s': State, t: nat, h: nat, path: string, response: Response)
    requires CachesInv(s) && t < |s.tasks| && TaskInv(s, t) && h < |s.handles| && path !in s.handles[h].written
    requires s'.handles == Apply(s, Put(h, path, response)).handles && s'.names == s.names && s'.slot == s.slot
    requires t < |s'.tasks| && s'.tasks[t] == s.tasks[t] && s.slot != Some(t)
    ensures TaskInv(s', t)
  {
    var p := s.tasks[t].phase;
    assert s'.handles[h].written == s.handles[h].written[path := response];
    assert forall k | 0 <= k < |s.handles| && k != h :: s'.handles[k] == s.handles[k];
    hide Ready, Checked, PolicyOf, NoReadyRepair;
  }

  lemma PutKeepsCaches(s: State, h: nat, path: string, response: Response)
    requires CachesInv(s) && h < |s.handles| && path !in s.handles[h].written
    ensures CachesInv(Apply(s, Put(h, path, response)))
  {
  }

  // ----- The check

  lemma ShellPathsSplit(path: string)
    ensures path in APP_SHELL_PATHS
            <==> path == HANDLE_MODE_PATH || path in APP_SHELL_PATHS[1..4] || path == APP_SHELL_PATHS[4]
  {
    assert APP_SHELL_PATHS == [HANDLE_MODE_PATH] + APP_SHELL_PATHS[1..4] + [APP_SHELL_PATHS[4]];
  }

  lemma CheckStarts(document: Response)
    requires document.accepted && StaticAssets(document) != []
    ensures Checked(map[HANDLE_MODE_PATH := document], Todo(document))
  {
    forall p ensures IsRequired(document, p) <==> p == HANDLE_MODE_PATH || p in Todo(document) {
      ShellPathsSplit(p);
    }
    hide APP_SHELL_PATHS, StaticAssets;
  }

  lemma CheckAdvances(seen: Cache, todo: seq<string>, c: Cache, written: Cache)
    requires Checked(seen, todo) && todo != [] && Has(c, todo[0]) && Within(seen, written) && Within(c, written)
    ensures Checked(seen[todo[0] := c[todo[0]]], todo[1..]) && Within(seen[todo[0] := c[todo[0]]], written)
  {
    hide IsRequired, StaticAssets;
    assert todo == [todo[0]] + todo[1..];
    assert seen[todo[0] := c[todo[0]]][HANDLE_MODE_PATH] == seen[HANDLE_MODE_PATH];
  }

  lemma CheckPasses(seen: Cache, todo: seq<string>)
    requires Checked(seen, todo) && todo == []
    ensures Ready(seen)
  {
    forall p | p in APP_SHELL_PATHS ensures Has(seen, p) { assert IsRequired(seen[HANDLE_MODE_PATH], p); }
    forall p | p in StaticAssets(seen[HANDLE_MODE_PATH]) ensures Has(seen, p) {
      assert IsRequired(seen[HANDLE_MODE_PATH], p);
    }
  }

  /** A check that misses a path was looking at a cache that is not ready at that moment. */
  lemma CheckMisses(seen: Cache, todo: seq<string>, c: Cache, written: Cache, path: string)
    requires Checked(seen, todo) && path in todo && !Has(c, path) && Within(seen, written) && Within(c, written)
    ensures !Ready(c)
  {
    assert IsRequired(seen[HANDLE_MODE_PATH], path);
  }

  /** An unaccepted document is never replaced, so its cache is never ready. */
  lemma BadDocumentIsUnready(c: Cache, written: Cache)
    requires Within(c, written) && HANDLE_MODE_PATH in written && !written[HANDLE_MODE_PATH].accepted
    ensures !Ready(c)
  {
  }

  // ----- Filling

  lemma ShellPathsAreDistinct()
    ensures Distinct(APP_SHELL_PATHS)
  {
    forall i, j | 0 <= i < j < |APP_SHELL_PATHS| ensures APP_SHELL_PATHS[i] != APP_SHELL_PATHS[j] {
      assert |APP_SHELL_PATHS[1]| == 21 && |APP_SHELL_PATHS[2]| == 21 && APP_SHELL_PATHS[1][1] != APP_SHELL_PATHS[2][1];
      assert |APP_SHELL_PATHS[0]| == 16 && |APP_SHELL_PATHS[3]| == 30 && |APP_SHELL_PATHS[4]| == 18;
    }
  }

  lemma FillStarts()
    ensures FillsOnce(map[], APP_SHELL_PATHS)
  {
    ShellPathsAreDistinct();
  }

  lemma FillAdvances(written: Cache, todo: seq<string>, response: Response)
    requires FillsOnce(written, todo) && todo != []
    ensures FillsOnce(written[todo[0] := response],
                      todo[1..] + if todo[0] == HANDLE_MODE_PATH then StaticAssets(response) else [])
  {
    assert todo == [todo[0]] + todo[1..] && todo[0] !in todo[1..];
    assert HANDLE_MODE_PATH in todo ==> todo[0] == HANDLE_MODE_PATH;
    if todo[0] == HANDLE_MODE_PATH {
      var assets := StaticAssets(response);
      forall p | p in todo ensures p !in assets {
        if p in assets { ShellPathsAreNotStatic(p); }
      }
      DistinctTogether(todo[1..], assets);
    } else {
      assert todo[1..] + [] == todo[1..];
    }
  }

  lemma DistinctTogether(a: seq<string>, b: seq<string>)
    requires Distinct(a) && Distinct(b) && forall p | p in a :: p !in b
    ensures Distinct(a + b)
  {
    forall i, j | 0 <= i < j < |a + b| ensures (a + b)[i] != (a + b)[j] {
      if i < |a| <= j { assert a[i] in a && b[j - |a|] in b; }
    }
  }

  // ----- Every step keeps the invariant

  /** A new phase after a failed check is in order when the repair cache named now is not ready. */
  lemma AfterFailureKeeps(s: State, t: nat, purpose: Purpose, h: nat, current: bool)
    requires t < |s.tasks| && h < |s.handles| && s.tasks[t].phase == AfterFailure(purpose, h, current)
    requires s.tasks[t].goal.Attempt? ==> s.slot == Some(t) && (purpose.Look? ==> NoReadyRepair(s))
    requires s.tasks[t].goal.Request? ==> purpose.Look? && !PolicyOf(s.tasks[t].goal.key).Bypass?
    ensures TaskInv(s, t)
  {
    hide PolicyOf, NoReadyRepair;
  }

  /** An attempt whose check fails finds no ready repair cache. */
  lemma FailedCheckLeavesNoReadyRepair(s: State, t: nat)
    requires Inv(s) && t < |s.tasks| && s.tasks[t].goal.Attempt?
    requires var p := s.tasks[t].phase;
             IsCheck(p) && p.purpose.Look? && !Ready(ContentOf(s, p.h))
    ensures NoReadyRepair(s)
  {
    assert TaskInv(s, t);
    hide Ready, PhaseInv, GoalInv;
  }

  /** A check that goes on with the same cache needs no more than its own progress. */
  lemma CheckGoesOn(s: State, t: nat, p': Phase)
    requires t < |s.tasks| && TaskInv(s, t) && IsCheck(s.tasks[t].phase) && PhaseInv(s, p')
    requires IsCheck(p') && p'.h == s.tasks[t].phase.h && p'.purpose == s.tasks[t].phase.purpose
    ensures TaskInv(To(s, t, p'), t)
  {
    hide Ready, PolicyOf, Checked;
  }

  lemma CheckFails(s: State, t: nat, current: bool)
    requires Inv(s) && t < |s.tasks| && IsCheck(s.tasks[t].phase) && !Ready(ContentOf(s, s.tasks[t].phase.h))
    ensures var p := s.tasks[t].phase; TaskInv(To(s, t, AfterFailure(p.purpose, p.h, current)), t)
  {
    assert TaskInv(s, t);
    var p := s.tasks[t].phase;
    if s.tasks[t].goal.Attempt? && p.purpose.Look? { FailedCheckLeavesNoReadyRepair(s, t); }
    hide Ready, PolicyOf, Checked;
    AfterFailureKeeps(To(s, t, AfterFailure(p.purpose, p.h, current)), t, p.purpose, p.h, current);
  }

  lemma DocumentStepKeeps(s: State, t: nat, current: bool, answer: Option<Response>)
    requires Inv(s) && t < |s.tasks| && s.tasks[t].phase.CheckDocument?
    ensures TaskInv(Next(s, Step(t, current, answer)), t)
  {
    assert TaskInv(s, t);
    var p := s.tasks[t].phase;
    var c := s.handles[p.h].content;
    var p' := DocumentStep(c, p.h, p.purpose, current);
    if Has(c, HANDLE_MODE_PATH) && StaticAssets(c[HANDLE_MODE_PATH]) != [] {
      CheckStarts(c[HANDLE_MODE_PATH]);
      hide Checked, Todo, AttemptInv, GoalInv, StaticAssets;
      CheckGoesOn(s, t, p');
    } else if HANDLE_MODE_PATH in c && !c[HANDLE_MODE_PATH].accepted {
      hide AttemptInv, GoalInv, StaticAssets;
      CheckGoesOn(s, t, p');
    } else {
      assert !Ready(c);
      hide AttemptInv, GoalInv, StaticAssets;
      CheckFails(s, t, current);
    }
  }

  /** A task that is over, or that now has its evidence, needs no more than that. */
  lemma NewPhase(s: State, t: nat, p': Phase)
    requires t < |s.tasks| && PhaseInv(s, p') && GoalInv(s, s.tasks[t].(phase := p'))
    requires !PastTheRepairCheck(p') && !LooksAtRepair(p')
    requires s.tasks[t].goal.Attempt? && !IsOver(p') ==> s.slot == Some(t)
    ensures TaskInv(To(s, t, p'), t)
  {
    hide Ready, Checked, FillsOnce, Within, PolicyOf, NoReadyRepair, IsPopulating, PastTheRepairCheck, LooksAtRepair;
  }

  lemma CheckSucceeds(s: State, t: nat)
    requires Inv(s) && t < |s.tasks| && s.tasks[t].phase.CheckPaths? && s.tasks[t].phase.todo == []
    ensures var p := s.tasks[t].phase; TaskInv(To(s, t, AfterSuccess(s.tasks[t].goal, p.purpose, p.h, p.seen)), t)
  {
    hide Ready, Has, StaticAssets, IsRequired, PolicyOf, NoReadyRepair;
    assert TaskInv(s, t);
    var p := s.tasks[t].phase;
    CheckPasses(p.seen, p.todo);
    assert Evidence(s, p.h, p.seen);
    hide Evidence, Checked, Within, TaskInv;
    NewPhase(s, t, AfterSuccess(s.tasks[t].goal, p.purpose, p.h, p.seen));
  }

  lemma PathStepKeeps(s: State, t: nat, current: bool, answer: Option<Response>)
    requires Inv(s) && t < |s.tasks| && s.tasks[t].phase.CheckPaths?
    ensures TaskInv(Next(s, Step(t, current, answer)), t)
  {
    assert TaskInv(s, t);
    var p := s.tasks[t].phase;
    var c := s.handles[p.h].content;
    if p.todo == [] {
      hide AttemptInv, GoalInv, Checked;
      CheckSucceeds(s, t);
    } else if Has(c, p.todo[0]) {
      CheckAdvances(p.seen, p.todo, c, s.handles[p.h].written);
      hide AttemptInv, GoalInv, Checked;
      CheckGoesOn(s, t, PathStep(s.tasks[t].goal, c, p, current));
    } else {
      CheckMisses(p.seen, p.todo, c, s.handles[p.h].written, p.todo[0]);
      hide AttemptInv, GoalInv, Checked;
      CheckFails(s, t, current);
    }
  }

  lemma PruneStepKeeps(s: State, t: nat, current: bool, answer: Option<Response>)
    requires Inv(s) && t < |s.tasks| && s.tasks[t].phase.PruneDocument?
    ensures TaskInv(Next(s, Step(t, current, answer)), t)
  {
    assert TaskInv(s, t);
    var p := s.tasks[t].phase;
    BadDocumentIsUnready(s.handles[p.h].content, s.handles[p.h].written);
    var failed := To(s, t, AfterFailure(p.purpose, p.h, current));
    CheckFails(s, t, current);
    ApplyIsMilder(s, Lose(p.h, HANDLE_MODE_PATH));
    hide TaskInv, Ready;
    MilderKeepsTask(failed, Next(s, Step(t, current, answer)), t);
  }

  lemma FillStepKeeps(s: State, t: nat, current: bool, answer: Option<Response>)
    requires Inv(s) && t < |s.tasks| && s.tasks[t].phase.Filling?
    ensures TaskInv(Next(s, Step(t, current, answer)), t)
  {
    hide FillsOnce, PolicyOf, Ready, IsRequired, Evidence, DocumentStep, PathStep, NoReadyRepair;
    assert TaskInv(s, t);
    var p := s.tasks[t].phase;
    if p.todo != [] && Storable(p.todo[0], answer) {
      FillAdvances(s.handles[p.h].written, p.todo, answer.value);
    }
    hide Storable, StaticAssets;
  }

  /** What a request is served was seen by the check, or it is checked once more. */
  lemma ServedIsAccepted(key: string, c: Cache, seen: Cache, written: Cache)
    requires !PolicyOf(key).Bypass? && Serves(key, c) && Ready(seen) && Within(seen, written) && Within(c, written)
    ensures c[key].accepted
  {
    if !PolicyOf(key).Immutable? {
      assert key in APP_SHELL_PATHS;
      assert Has(seen, key);
    }
  }

  lemma MatchStepKeeps(s: State, t: nat, current: bool, answer: Option<Response>)
    requires Inv(s) && t < |s.tasks| && s.tasks[t].phase.Matching?
    ensures TaskInv(Next(s, Step(t, current, answer)), t)
  {
    hide Ready, IsRequired, PolicyOf, NoReadyRepair, DocumentStep, PathStep, FillStep;
    assert TaskInv(s, t);
    var p, goal := s.tasks[t].phase, s.tasks[t].goal;
    var c := s.handles[p.h].content;
    if goal.Request? && Serves(goal.key, c) {
      ServedIsAccepted(goal.key, c, p.seen, s.handles[p.h].written);
    }
    hide Evidence, TaskInv;
    NewPhase(s, t, StepOf(s, s.tasks[t], current, answer).1);
  }

  /** The steps that look at names, create them and delete them. */
  lemma NameStepKeeps(s: State, t: nat, current: bool, answer: Option<Response>)
    requires Inv(s) && t < |s.tasks|
    requires var p := s.tasks[t].phase;
             p.ReadNames? || p.Opening? || p.Dropping? || p.Missing? || p.Emptying? || p.OpenFresh?
    ensures TaskInv(Next(s, Step(t, current, answer)), t)
  {
    hide FillsOnce, PolicyOf, Ready, IsRequired, Evidence, DocumentStep, PathStep, FillStep;
    assert TaskInv(s, t);
    FillStarts();
  }

  lemma LastStepKeeps(s: State, t: nat, current: bool, answer: Option<Response>)
    requires Inv(s) && t < |s.tasks|
    requires var p := s.tasks[t].phase; p.Populated? || p.Superseding? || p.Undoing? || IsOver(p)
    ensures TaskInv(Next(s, Step(t, current, answer)), t)
  {
    hide Ready, IsRequired, PolicyOf, NoReadyRepair, DocumentStep, PathStep, FillStep;
    assert TaskInv(s, t);
    var (effect, p') := StepOf(s, s.tasks[t], current, answer);
    hide Evidence, TaskInv;
    NewPhase(Apply(s, effect), t, p');
  }

  /** The step of a task leaves it in order. */
  lemma StepKeepsItsTask(s: State, t: nat, current: bool, answer: Option<Response>)
    requires Inv(s) && t < |s.tasks|
    ensures TaskInv(Next(s, Step(t, current, answer)), t)
  {
    hide Inv, TaskInv, Next, StepOf;
    match s.tasks[t].phase
    case CheckDocument(_, _) => DocumentStepKeeps(s, t, current, answer);
    case PruneDocument(_, _) => PruneStepKeeps(s, t, current, answer);
    case CheckPaths(_, _, _, _) => PathStepKeeps(s, t, current, answer);
    case Filling(_, _) => FillStepKeeps(s, t, current, answer);
    case Matching(_, _) => MatchStepKeeps(s, t, current, answer);
    case ReadNames => NameStepKeeps(s, t, current, answer);
    case Opening(_, _) => NameStepKeeps(s, t, current, answer);
    case Dropping(_, _) => NameStepKeeps(s, t, current, answer);
    case Missing => NameStepKeeps(s, t, current, answer);
    case Emptying => NameStepKeeps(s, t, current, answer);
    case OpenFresh => NameStepKeeps(s, t, current, answer);
    case _ => LastStepKeeps(s, t, current, answer);
  }

  /** Only a populating attempt stores, and only a path its cache never had. */
  lemma PutsAreNew(s: State, t: nat, current: bool, answer: Option<Response>)
    requires Inv(s) && t < |s.tasks| && StepOf(s, s.tasks[t], current, answer).0.Put?
    ensures s.slot == Some(t)
    ensures var e := StepOf(s, s.tasks[t], current, answer).0; e.h < |s.handles| && e.path !in s.handles[e.h].written
  {
    assert TaskInv(s, t);
    assert s.tasks[t].phase.Filling? && s.tasks[t].phase.todo != [];
    assert s.tasks[t].phase.todo[0] in s.tasks[t].phase.todo;
  }

  lemma StepKeeps(s: State, t: nat, current: bool, answer: Option<Response>)
    requires Inv(s) && t < |s.tasks|
    ensures Inv(Next(s, Step(t, current, answer)))
  {
    var s' := Next(s, Step(t, current, answer));
    var effect := StepOf(s, s.tasks[t], current, answer).0;
    StepKeepsItsTask(s, t, current, answer);
    if effect.Put? {
      PutsAreNew(s, t, current, answer);
      PutKeepsCaches(s, effect.h, effect.path, effect.response);
    } else {
      ApplyIsMilder(s, effect);
    }
    hide TaskInv, StepOf, CachesInv, Milder;
    forall u | 0 <= u < |s.tasks| && u != t ensures TaskInv(s', u) {
      if effect.Put? {
        PutKeepsTask(s, s', u, effect.h, effect.path, effect.response);
      } else {
        MilderInCaches(s, Apply(s, effect), s');
        MilderKeepsTask(s, s', u);
      }
    }
    SameCaches(Apply(s, effect), s');
  }

  lemma SameCaches(s: State, s': State)
    requires CachesInv(s) && s'.handles == s.handles && s'.names == s.names
    ensures CachesInv(s')
  {
  }

  lemma MilderInCaches(s: State, m: State, s': State)
    requires Milder(s, m) && s'.handles == m.handles && s'.names == m.names && s'.slot == m.slot
    ensures Milder(s, s')
  {
  }

  lemma FailKeeps(s: State, t: nat)
    requires Inv(s) && t < |s.tasks|
    ensures Inv(Next(s, Fail(t)))
  {
    var s' := Next(s, Fail(t));
    assert TaskInv(s, t);
    assert TaskInv(s', t) by { hide Ready, PolicyOf, Checked, FillsOnce, NoReadyRepair; }
    assert Milder(s, s');
    hide TaskInv;
    forall u | 0 <= u < |s.tasks| && u != t ensures TaskInv(s', u) {
      MilderKeepsTask(s, s', u);
    }
  }

  /** A new task starts by reading the names. */
  lemma ArrivalKeeps(s: State, e: Event)
    requires Inv(s) && (e.Call? || e.Turn?)
    ensures Inv(Next(s, e))
  {
    var s' := Next(s, e);
    forall u | 0 <= u < |s.tasks| ensures TaskInv(s', u) {
      assert TaskInv(s, u);
      assert s'.tasks[u] == s.tasks[u];
      hide Ready, PolicyOf, Checked, FillsOnce, Within;
    }
    hide PolicyOf;
  }

  lemma LossKeeps(s: State, effect: Effect)
    requires Inv(s) && (effect.Lose? || effect.Unname?)
    ensures Inv(Apply(s, effect))
  {
    ApplyIsMilder(s, effect);
    hide TaskInv, CachesInv, Milder;
    forall u | 0 <= u < |s.tasks| ensures TaskInv(Apply(s, effect), u) {
      MilderKeepsTask(s, Apply(s, effect), u);
    }
  }

  lemma ClearKeeps(s: State, t: nat)
    requires Inv(s)
    ensures Inv(Next(s, Clear(t)))
  {
    var s' := Next(s, Clear(t));
    forall u | 0 <= u < |s.tasks| ensures TaskInv(s', u) {
      assert TaskInv(s, u);
      assert u != t && s.slot == Some(t) && s.tasks[u].goal.Attempt? ==> IsOver(s.tasks[u].phase);
      hide Ready, PolicyOf, Checked, FillsOnce, Within;
    }
  }

  lemma NextKeeps(s: State, e: Event)
    requires Inv(s)
    ensures Inv(Next(s, e))
  {
    hide Inv, StepOf, FailOf;
    match e
    case Call => ArrivalKeeps(s, e);
    case Turn(_) => ArrivalKeeps(s, e);
    case Step(t, current, answer) => if t < |s.tasks| { StepKeeps(s, t, current, answer); }
    case Fail(t) => if t < |s.tasks| { FailKeeps(s, t); }
    case Clear(t) => ClearKeeps(s, t);
    case Evict(h, path) => LossKeeps(s, Lose(h, path));
    case Drop(name) => LossKeeps(s, Unname(name));
  }

  lemma {:induction false} RunKeeps(s: State, events: seq<Event>)
    requires Inv(s)
    ensures Inv(Run(s, events))
  {
    hide Inv, Next;
    if events != [] {
      RunKeeps(s, events[..|events| - 1]);
      NextKeeps(Run(s, events[..|events| - 1]), events[|events| - 1]);
    }
  }

  lemma StartIsSound(installed: Option<Cache>, repair: Option<Cache>)
    ensures Inv(Start(installed, repair))
  {
  }

  lemma ReachableInv(installed: Option<Cache>, repair: Option<Cache>, events: seq<Event>)
    ensures Inv(Run(Start(installed, repair), events))
  {
    StartIsSound(installed, repair);
    RunKeeps(Start(installed, repair), events);
  }
}
