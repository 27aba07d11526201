/**
 What a request and a repair attempt get from the shell caches when nobody disturbs them
 (apps/web/public/sw.js: `findOfflineReadyShellCache`, `populateShellCache`, `ensureHandleModeOfflineReady`):
 from any caches they finish, and the end says which caches were ready and what the network answered.
 */
module ShellProgress {
  import opened Wrappers
  import opened ShellCache
  import opened ShellProtocol

  /** What the network answers for a path; a fetch may fail. */
  type Web = string -> Option<Response>

  function Asked(p: Phase): string { if p.Filling? && p.todo != [] then p.todo[0] else "" }

  /** k steps of one task in a row. */
  ghost function Alone(s: State, task: Task, current: bool, web: Web, k: nat): (State, Task)
    decreases k
  {
    if k == 0 then (s, task)
    else
      var (effect, phase) := StepOf(s, task, current, web(Asked(task.phase)));
      Alone(Apply(s, effect), task.(phase := phase), current, web, k - 1)
  }

  lemma {:induction false} AloneThen(s: State, task: Task, current: bool, web: Web, j: nat, k: nat)
    ensures var (s', task') := Alone(s, task, current, web, j);
            Alone(s, task, current, web, j + k) == Alone(s', task', current, web, k)
    decreases j
  {
    hide StepOf, Apply;
    if j > 0 {
      var (effect, phase) := StepOf(s, task, current, web(Asked(task.phase)));
      AloneThen(Apply(s, effect), task.(phase := phase), current, web, j - 1, k);
    }
  }

  lemma OneStep(s: State, task: Task, current: bool, web: Web)
    ensures var (effect, phase) := StepOf(s, task, current, web(Asked(task.phase)));
            Alone(s, task, current, web, 1) == (Apply(s, effect), task.(phase := phase))
  {
    hide StepOf, Apply;
    var (effect, phase) := StepOf(s, task, current, web(Asked(task.phase)));
    assert Alone(Apply(s, effect), task.(phase := phase), current, web, 0)
        == (Apply(s, effect), task.(phase := phase));
  }

  // ----- Runs

  lemma StepsIgnoreTasks(s: State, tasks: seq<Task>, task: Task, current: bool, answer: Option<Response>)
    ensures StepOf(s.(tasks := tasks), task, current, answer) == StepOf(s, task, current, answer)
    ensures forall effect :: Apply(s.(tasks := tasks), effect) == Apply(s, effect).(tasks := tasks)
  {
  }

  lemma {:induction false} IgnoresTasks(s: State, tasks: seq<Task>, task: Task, current: bool, web: Web, k: nat)
    ensures var (s', task') := Alone(s, task, current, web, k);
            Alone(s.(tasks := tasks), task, current, web, k) == (s'.(tasks := tasks), task')
    decreases k
  {
    hide StepOf, Apply;
    if k > 0 {
      var answer := web(Asked(task.phase));
      var (effect, phase) := StepOf(s, task, current, answer);
      StepsIgnoreTasks(s, tasks, task, current, answer);
      IgnoresTasks(Apply(s, effect), tasks, task.(phase := phase), current, web, k - 1);
    }
  }

  lemma EffectsKeepTasks(s: State, effect: Effect)
    ensures Apply(s, effect).tasks == s.tasks && Apply(s, effect).slot == s.slot
  {
  }

  /** A task that moves alone is a run of the protocol in which only that task takes steps. */
  lemma {:induction false} AloneIsARun(s: State, t: nat, current: bool, web: Web, k: nat) returns (events: seq<Event>)
    requires t < |s.tasks|
    ensures |events| == k
    ensures forall i | 0 <= i < k :: events[i].Step? && events[i].task == t && events[i].current == current
    ensures var (s', task') := Alone(s, s.tasks[t], current, web, k);
            Run(s, events) == s'.(tasks := s.tasks[t := task'])
    decreases k
  {
    hide StepOf, Apply;
    if k == 0 {
      events := [];
      assert s.tasks[t := s.tasks[t]] == s.tasks;
    } else {
      var answer := web(Asked(s.tasks[t].phase));
      var e := Step(t, current, answer);
      var (effect, phase) := StepOf(s, s.tasks[t], current, answer);
      var m := Apply(s, effect);
      var n := Next(s, e);
      EffectsKeepTasks(s, effect);
      assert n == m.(tasks := s.tasks[t := s.tasks[t].(phase := phase)]);
      var rest := AloneIsARun(n, t, current, web, k - 1);
      IgnoresTasks(m, n.tasks, n.tasks[t], current, web, k - 1);
      OneEvent(s, e);
      RunAppend(s, [e], rest);
      events := [e] + rest;
      assert n.tasks[t := Alone(m, n.tasks[t], current, web, k - 1).1]
          == s.tasks[t := Alone(m, n.tasks[t], current, web, k - 1).1];
    }
  }

  // ----- One check

  lemma ReadyIff(c: Cache)
    ensures Ready(c) <==>
              && Has(c, HANDLE_MODE_PATH) && StaticAssets(c[HANDLE_MODE_PATH]) != []
              && HasAll(c, Todo(c[HANDLE_MODE_PATH]))
  {
    if Has(c, HANDLE_MODE_PATH) {
      var document := c[HANDLE_MODE_PATH];
      forall p ensures p == HANDLE_MODE_PATH || p in Todo(document) <==>
                         p in APP_SHELL_PATHS || p in StaticAssets(document)
      {
        ShellPathsSplit(p);
      }
      hide APP_SHELL_PATHS, StaticAssets, Todo;
    }
  }

  /** The paths are all there, or the check fails. */
  lemma {:induction false} ChecksPaths(s: State, task: Task, current: bool, web: Web) returns (k: nat, seen: Cache)
    requires task.phase.CheckPaths?
    ensures var p := task.phase;
            Alone(s, task, current, web, k)
            == (s, task.(phase := if HasAll(ContentOf(s, p.h), p.todo)
                                  then AfterSuccess(task.goal, p.purpose, p.h, seen)
                                  else AfterFailure(p.purpose, p.h, current)))
    decreases |task.phase.todo|
  {
    hide ContentOf, AfterSuccess, AfterFailure, Has;
    var p, c := task.phase, ContentOf(s, task.phase.h);
    seen := p.seen;
    OneStep(s, task, current, web);
    k := 1;
    if p.todo != [] {
      if Has(c, p.todo[0]) {
        var task' := Alone(s, task, current, web, 1).1;
        var j;
        j, seen := ChecksPaths(s, task', current, web);
        AloneThen(s, task, current, web, 1, j);
        k := 1 + j;
        assert p.todo == [p.todo[0]] + p.todo[1..];
      } else {
        assert p.todo[0] in p.todo;
      }
    }
  }

  /** Looking at a cache removes a document that fails its own check. */
  function Looked(s: State, h: nat): State {
    if HANDLE_MODE_PATH in ContentOf(s, h) && !ContentOf(s, h)[HANDLE_MODE_PATH].accepted
    then Apply(s, Lose(h, HANDLE_MODE_PATH)) else s
  }

  /** A check succeeds exactly when the cache is ready. */
  lemma Checks(s: State, task: Task, current: bool, web: Web) returns (k: nat, seen: Cache)
    requires task.phase.CheckDocument?
    ensures var p := task.phase;
            Alone(s, task, current, web, k)
            == (Looked(s, p.h),
                task.(phase := if Ready(ContentOf(s, p.h)) then AfterSuccess(task.goal, p.purpose, p.h, seen)
                               else AfterFailure(p.purpose, p.h, current)))
  {
    hide ContentOf, AfterSuccess, AfterFailure, Ready, StaticAssets, Todo;
    var p, c := task.phase, ContentOf(s, task.phase.h);
    ReadyIff(c);
    OneStep(s, task, current, web);
    var task' := Alone(s, task, current, web, 1).1;
    seen := map[];
    k := 1;
    if HANDLE_MODE_PATH in c && !c[HANDLE_MODE_PATH].accepted {
      OneStep(s, task', current, web);
      AloneThen(s, task, current, web, 1, 1);
      k := 2;
    } else if HANDLE_MODE_PATH in c && StaticAssets(c[HANDLE_MODE_PATH]) != [] {
      var j;
      j, seen := ChecksPaths(s, task', current, web);
      AloneThen(s, task, current, web, 1, j);
      k := 1 + j;
    }
  }

  // ----- Looking for a ready cache

  ghost predicate IsReadyUnder(s: State, name: Name) { name in s.names && Ready(ContentOf(s, s.names[name])) }

  /** The repaired shell if it is ready, else the installed one if it is. */
  ghost function Found(s: State): Option<nat> {
    if IsReadyUnder(s, RepairShell) then Some(s.names[RepairShell])
    else if IsReadyUnder(s, InstalledShell) then Some(s.names[InstalledShell])
    else None
  }

  /** The caches after one name was looked at; a superseded worker drops the name of an unready cache. */
  ghost function LookedUnder(s: State, name: Name, current: bool): State {
    if name !in s.names then s
    else if current || Ready(ContentOf(s, s.names[name])) then Looked(s, s.names[name])
    else Apply(Looked(s, s.names[name]), Unname(name))
  }

  /** The caches after a look, which ends with the first ready one. */
  ghost function LookedFor(s: State, current: bool): State {
    if IsReadyUnder(s, RepairShell) then s
    else LookedUnder(LookedUnder(s, RepairShell, current), InstalledShell, current)
  }

  lemma LookedIs(s: State, h: nat)
    ensures var s' := Looked(s, h);
            && s'.names == s.names && |s'.handles| == |s.handles|
            && (forall g | 0 <= g < |s.handles| ::
                  ContentOf(s', g) == if g == h then Pruned(ContentOf(s, g)) else ContentOf(s, g))
            && (Ready(ContentOf(s, h)) ==> s' == s)
  {
  }

  /** One name: open it, check it, go on or drop it. */
  lemma LooksUnder(s: State, task: Task, current: bool, web: Web) returns (k: nat, seen: Cache)
    requires task.phase.Opening? && task.phase.which in s.names
    ensures var which := task.phase.which;
            Alone(s, task, current, web, k)
            == (LookedUnder(s, which, current),
                task.(phase := if IsReadyUnder(s, which)
                               then AfterSuccess(task.goal, Look(which, task.phase.shellListed), s.names[which], seen)
                               else Onward(which, task.phase.shellListed)))
  {
    var which, listed := task.phase.which, task.phase.shellListed;
    var h := s.names[which];
    OneStep(s, task, current, web);
    var checking := task.(phase := CheckDocument(h, Look(which, listed)));
    assert Alone(s, task, current, web, 1) == (s, checking);
    hide StepOf, Ready, ContentOf, AfterSuccess, Onward, Apply;
    var j;
    j, seen := Checks(s, checking, current, web);
    AloneThen(s, task, current, web, 1, j);
    k := 1 + j;
    if !current && !Ready(ContentOf(s, h)) {
      var dropping := task.(phase := Dropping(which, listed));
      DropsName(Looked(s, h), dropping, current, web);
      AloneThen(s, task, current, web, k, 1);
      k := k + 1;
    } else if Ready(ContentOf(s, h)) { LookedIs(s, h); }
  }

  lemma DropsName(s: State, task: Task, current: bool, web: Web)
    requires task.phase.Dropping?
    ensures var p := task.phase;
            Alone(s, task, current, web, 1)
            == (Apply(s, Unname(p.which)), task.(phase := Onward(p.which, p.shellListed)))
  {
    OneStep(s, task, current, web);
  }

  /** The same cache, or without a document that fails its own check. */
  ghost predicate IsPruned(c: Cache, c': Cache) { c' == c || c' == Pruned(c) }

  lemma LookedUnderIs(s: State, name: Name, current: bool)
    requires CachesInv(s)
    ensures var s' := LookedUnder(s, name, current);
            && CachesInv(s') && |s'.handles| == |s.handles|
            && (forall other :: other in s'.names <==>
                  other in s.names && (other != name || current || IsReadyUnder(s, name)))
            && (forall other | other in s'.names :: s'.names[other] == s.names[other])
            && (forall other | other in s'.names :: IsReadyUnder(s', other) <==> IsReadyUnder(s, other))
            && (forall h | 0 <= h < |s.handles| :: IsPruned(ContentOf(s, h), ContentOf(s', h)))
            && (IsReadyUnder(s, name) ==> s' == s)
  {
    if name in s.names {
      LookedIs(s, s.names[name]);
      LookedIsSound(s, s.names[name]);
    }
    hide Ready, Looked, Pruned;
  }

  lemma LookedIsSound(s: State, h: nat)
    requires CachesInv(s)
    ensures CachesInv(Looked(s, h))
    ensures forall g | 0 <= g < |s.handles| :: Ready(ContentOf(Looked(s, h), g)) <==> Ready(ContentOf(s, g))
  {
  }

  /** The phase after a look. */
  function AfterLook(goal: Goal, found: Option<nat>, seen: Cache): Phase {
    match found
    case None => Missing
    case Some(h) => if goal.Attempt? then Passed(h, seen) else Matching(h, seen)
  }

  /** A look finds the preferred ready cache. */
  lemma Looks(s: State, task: Task, current: bool, web: Web) returns (k: nat, seen: Cache)
    requires CachesInv(s) && task.phase.ReadNames?
    ensures Alone(s, task, current, web, k)
            == (LookedFor(s, current), task.(phase := AfterLook(task.goal, Found(s), seen)))
  {
    ReadsNames(s, task, current, web);
    hide StepOf, Ready, ContentOf, CachesInv, LookedUnder, Alone, LookedFor, Found;
    FoundIs(s, current);
    k, seen := 1, map[];
    var listed := InstalledShell in s.names;
    if RepairShell in s.names {
      var first := task.(phase := Opening(RepairShell, listed));
      var j;
      j, seen := LooksUnder(s, first, current, web);
      AloneThen(s, task, current, web, 1, j);
      k := 1 + j;
    }
    if !IsReadyUnder(s, RepairShell) {
      var s' := LookedUnder(s, RepairShell, current);
      if listed {
        var second := task.(phase := Opening(InstalledShell, true));
        assert Alone(s, task, current, web, k) == (s', second);
        var j;
        j, seen := LooksUnder(s', second, current, web);
        AloneThen(s, task, current, web, k, j);
        k := k + j;
      }
    }
  }

  /** The second name is looked at as it was before the first one. */
  lemma FoundIs(s: State, current: bool)
    requires CachesInv(s)
    ensures var s' := LookedUnder(s, RepairShell, current);
            if IsReadyUnder(s, RepairShell)
            then s' == s && LookedFor(s, current) == s && Found(s) == Some(s.names[RepairShell])
            else
              && LookedFor(s, current) == LookedUnder(s', InstalledShell, current)
              && (RepairShell !in s.names ==> s' == s)
              && (InstalledShell !in s.names ==> LookedFor(s, current) == s')
              && (InstalledShell in s.names <==> InstalledShell in s'.names)
              && (InstalledShell in s.names ==> s'.names[InstalledShell] == s.names[InstalledShell])
              && (IsReadyUnder(s', InstalledShell) <==> IsReadyUnder(s, InstalledShell))
              && Found(s) == if IsReadyUnder(s, InstalledShell) then Some(s.names[InstalledShell]) else None
  {
    hide Ready, ContentOf, CachesInv, LookedUnder;
    LookedUnderIs(s, RepairShell, current);
    var s' := LookedUnder(s, RepairShell, current);
    if RepairShell !in s.names { NotLooked(s, RepairShell, current); }
    if InstalledShell !in s.names { NotLooked(s', InstalledShell, current); }
  }

  lemma ReadsNames(s: State, task: Task, current: bool, web: Web)
    requires task.phase.ReadNames?
    ensures Alone(s, task, current, web, 1)
            == (s, task.(phase := if RepairShell in s.names then Opening(RepairShell, InstalledShell in s.names)
                                  else if InstalledShell in s.names then Opening(InstalledShell, true) else Missing))
  {
    OneStep(s, task, current, web);
  }

  lemma NotLooked(s: State, name: Name, current: bool)
    requires name !in s.names
    ensures LookedUnder(s, name, current) == s
  {
  }

  /** What a look leaves: every handle, pruned at most, and the names but those a superseded worker drops. */
  ghost predicate OnlyLooked(s: State, s': State, current: bool) {
    && |s'.handles| == |s.handles|
    && (forall h | 0 <= h < |s.handles| :: IsPruned(ContentOf(s, h), ContentOf(s', h)))
    && (forall name :: name in s'.names <==>
          && name in s.names
          && (current || IsReadyUnder(s, name) || (name.InstalledShell? && IsReadyUnder(s, RepairShell))))
    && (forall name | name in s'.names :: s'.names[name] == s.names[name])
    && (Found(s).Some? ==> ContentOf(s', Found(s).value) == ContentOf(s, Found(s).value))
  }

  lemma LookedForIs(s: State, current: bool)
    requires CachesInv(s)
    ensures OnlyLooked(s, LookedFor(s, current), current)
  {
    hide LookedUnder, Ready, Pruned, ContentOf, CachesInv;
    if !IsReadyUnder(s, RepairShell) {
      var s' := LookedUnder(s, RepairShell, current);
      LookedUnderIs(s, RepairShell, current);
      LookedUnderIs(s', InstalledShell, current);
      var s'' := LookedUnder(s', InstalledShell, current);
      LookedTwice(s, s', s'');
      if Found(s).Some? {
        InRange(s);
        ReadyIsNotPruned(ContentOf(s, Found(s).value), ContentOf(s'', Found(s).value));
      }
    }
  }

  lemma InRange(s: State)
    requires CachesInv(s) && Found(s).Some?
    ensures Found(s).value < |s.handles| && Ready(ContentOf(s, Found(s).value))
  {
  }

  lemma LookedTwice(s: State, s': State, s'': State)
    requires |s.handles| == |s'.handles| == |s''.handles|
    requires forall h | 0 <= h < |s.handles| :: IsPruned(ContentOf(s, h), ContentOf(s', h))
    requires forall h | 0 <= h < |s.handles| :: IsPruned(ContentOf(s', h), ContentOf(s'', h))
    ensures forall h | 0 <= h < |s.handles| :: IsPruned(ContentOf(s, h), ContentOf(s'', h))
  {
    hide ContentOf, IsPruned;
    forall h | 0 <= h < |s.handles| ensures IsPruned(ContentOf(s, h), ContentOf(s'', h)) {
      PrunedTwice(ContentOf(s, h), ContentOf(s', h), ContentOf(s'', h));
    }
  }

  lemma PrunedTwice(c: Cache, c': Cache, c'': Cache)
    requires IsPruned(c, c') && IsPruned(c', c'')
    ensures IsPruned(c, c'')
  {
  }

  lemma ReadyIsNotPruned(c: Cache, c': Cache)
    requires Ready(c) && IsPruned(c, c')
    ensures c' == c
  {
  }

  /** An undisturbed request is served by the preferred ready cache, exactly when that cache has an answer for it. */
  lemma UndisturbedRequests(s: State, key: string, current: bool, web: Web) returns (k: nat)
    requires CachesInv(s)
    ensures var (s', task') := Alone(s, Task(Request(key), ReadNames), current, web, k);
            && OnlyLooked(s, s', current)
            && (match Found(s)
                case None => task'.phase == Unserved
                case Some(h) =>
                  var c := ContentOf(s, h);
                  if key in c && (PolicyOf(key).Immutable? ==> c[key].accepted)
                  then task'.phase.Served? && task'.phase == Served(h, task'.phase.seen, c[key])
                  else task'.phase == Unserved)
  {
    hide Alone, OnlyLooked, LookedFor, Ready, PolicyOf, Found, ContentOf, CachesInv, StepOf;
    var task, s' := Task(Request(key), ReadNames), LookedFor(s, current);
    var j, seen := Looks(s, task, current, web);
    LookedForIs(s, current);
    var task' := task.(phase := AfterLook(task.goal, Found(s), seen));
    Answers(s', task', current, web);
    AloneThen(s, task, current, web, j, 1);
    k := j + 1;
    if Found(s).Some? { SameFound(s, current); }
  }

  lemma Answers(s: State, task: Task, current: bool, web: Web)
    requires task.goal.Request? && (task.phase.Matching? || task.phase.Missing?)
    ensures Alone(s, task, current, web, 1)
            == (s, task.(phase := if task.phase.Matching? && Serves(task.goal.key, ContentOf(s, task.phase.h))
                                  then Served(task.phase.h, task.phase.seen,
                                              ContentOf(s, task.phase.h)[task.goal.key])
                                  else Unserved))
  {
    OneStep(s, task, current, web);
  }

  lemma SameFound(s: State, current: bool)
    requires OnlyLooked(s, LookedFor(s, current), current) && Found(s).Some?
    ensures ContentOf(LookedFor(s, current), Found(s).value) == ContentOf(s, Found(s).value)
  {
  }

  /** The paths of each policy. */
  lemma PoliciesAre(path: string)
    ensures PolicyOf(path).Bootstrap? <==> path == "/zod-jitless-v1.js"
    ensures PolicyOf(path).Immutable? <==>
              || "/_next/static/" <= path
              || path == "/icons/handleplan.svg" || path == "/icons/handleplan-maskable.svg"
    ensures PolicyOf(path).Shell? <==> path == "/planlegg/handle" || path == "/manifest.webmanifest"
  {
    ShellPathsAreDistinct();
    assert APP_SHELL_PATHS[2..4] == [APP_SHELL_PATHS[2], APP_SHELL_PATHS[3]];
    assert path in APP_SHELL_PATHS <==> exists i :: 0 <= i < 5 && APP_SHELL_PATHS[i] == path;
    forall i | 0 <= i < 5 ensures !(STATIC_PREFIX <= APP_SHELL_PATHS[i]) { ShellPathsAreNotStatic(APP_SHELL_PATHS[i]); }
  }

  // ----- Populating

  predicate Acceptable(web: Web, path: string) { web(path).Some? && web(path).value.accepted }

  /** The answers for some paths; only used where they are acceptable. */
  function Answered(web: Web, paths: seq<string>): Cache {
    map p | p in paths :: if web(p).Some? then web(p).value else Response(false, [])
  }

  ghost predicate AllAcceptable(web: Web, paths: seq<string>) { forall p | p in paths :: Acceptable(web, p) }

  /** The document answers acceptably with one to fifty-nine assets, and so does every other path it needs. */
  ghost predicate CanBePopulated(web: Web) {
    && Acceptable(web, HANDLE_MODE_PATH)
    && var assets := StaticAssets(web(HANDLE_MODE_PATH).value);
       1 <= |assets| <= 59 && AllAcceptable(web, APP_SHELL_PATHS[1..] + assets)
  }

  function Filled(s: State, h: nat, more: Cache): State
    requires h < |s.handles|
  {
    s.(handles := s.handles[h := Handle(s.handles[h].content + more, s.handles[h].written + more)])
  }

  /** Filling changes one cache. */
  ghost predicate OnlyFilled(s: State, s': State, h: nat) {
    && s' == s.(handles := s'.handles) && |s'.handles| == |s.handles|
    && forall g | 0 <= g < |s.handles| && g != h :: s'.handles[g] == s.handles[g]
  }

  lemma FillsOne(s: State, task: Task, current: bool, web: Web)
    requires task.phase.Filling? && task.phase.h < |s.handles| && task.phase.todo != []
    requires task.phase.todo[0] != HANDLE_MODE_PATH
    ensures var h, path := task.phase.h, task.phase.todo[0];
            Alone(s, task, current, web, 1)
            == if Acceptable(web, path) then (Filled(s, h, Answered(web, [path])),
                                              task.(phase := Filling(h, task.phase.todo[1..])))
               else (s, task.(phase := Undoing(h)))
  {
    OneStep(s, task, current, web);
    var h, path := task.phase.h, task.phase.todo[0];
    if Acceptable(web, path) {
      var r := web(path).value;
      assert Answered(web, [path]) == map[path := r];
      assert s.handles[h].content + map[path := r] == s.handles[h].content[path := r];
      assert s.handles[h].written + map[path := r] == s.handles[h].written[path := r];
      assert task.phase.todo[1..] + [] == task.phase.todo[1..];
    }
  }

  lemma FillsMore(s: State, h: nat, web: Web, path: string, paths: seq<string>)
    requires h < |s.handles|
    ensures Filled(Filled(s, h, Answered(web, [path])), h, Answered(web, paths))
         == Filled(s, h, Answered(web, [path] + paths))
  {
    var a, b := Answered(web, [path]), Answered(web, paths);
    assert Answered(web, [path] + paths) == a + b;
    hide Answered;
    Together(s.handles[h].content, a, b);
    Together(s.handles[h].written, a, b);
  }

  lemma Together(c: Cache, a: Cache, b: Cache)
    ensures (c + a) + b == c + (a + b)
  {
  }

  /** The paths after the document are stored one by one until one is not acceptable. */
  lemma {:induction false} FillsRest(s: State, task: Task, current: bool, web: Web) returns (k: nat)
    requires task.phase.Filling? && task.phase.h < |s.handles| && HANDLE_MODE_PATH !in task.phase.todo
    ensures var (s', task') := Alone(s, task, current, web, k);
            var h, todo := task.phase.h, task.phase.todo;
            if AllAcceptable(web, todo)
            then s' == Filled(s, h, Answered(web, todo)) && task' == task.(phase := CheckDocument(h, Own))
            else OnlyFilled(s, s', h) && task' == task.(phase := Undoing(h))
    decreases |task.phase.todo|
  {
    var h, todo := task.phase.h, task.phase.todo;
    k := 1;
    if todo == [] {
      FillsNothing(s, task, current, web);
    } else {
      FillsOne(s, task, current, web);
      assert todo == [todo[0]] + todo[1..];
      hide Acceptable, Answered, Filled;
      if Acceptable(web, todo[0]) {
        var (s', task') := Alone(s, task, current, web, 1);
        FilledIs(s, h, Answered(web, [todo[0]]));
        var j := FillsRest(s', task', current, web);
        AloneThen(s, task, current, web, 1, j);
        k := 1 + j;
        FillsMore(s, h, web, todo[0], todo[1..]);
      }
    }
  }

  lemma FillsNothing(s: State, task: Task, current: bool, web: Web)
    requires task.phase.Filling? && task.phase.h < |s.handles| && task.phase.todo == []
    ensures Alone(s, task, current, web, 1) == (s, task.(phase := CheckDocument(task.phase.h, Own)))
    ensures Filled(s, task.phase.h, Answered(web, [])) == s
  {
    OneStep(s, task, current, web);
    var handle := s.handles[task.phase.h];
    assert Answered(web, []) == map[];
    assert handle.content + map[] == handle.content && handle.written + map[] == handle.written;
  }

  lemma FilledIs(s: State, h: nat, more: Cache)
    requires h < |s.handles|
    ensures OnlyFilled(s, Filled(s, h, more), h)
  {
  }

  /** Everything a populated cache holds. */
  function ShellOf(web: Web): Cache
    requires Acceptable(web, HANDLE_MODE_PATH)
  {
    Answered(web, APP_SHELL_PATHS + StaticAssets(web(HANDLE_MODE_PATH).value))
  }

  lemma ShellIsReady(web: Web)
    requires CanBePopulated(web)
    ensures Ready(ShellOf(web))
  {
    var document := web(HANDLE_MODE_PATH).value;
    var assets := StaticAssets(document);
    assert APP_SHELL_PATHS == [HANDLE_MODE_PATH] + APP_SHELL_PATHS[1..];
    assert APP_SHELL_PATHS[0] in APP_SHELL_PATHS;
    hide APP_SHELL_PATHS, StaticAssets, HANDLE_MODE_PATH;
    forall p | p in APP_SHELL_PATHS + assets ensures Has(ShellOf(web), p) {
      assert p == HANDLE_MODE_PATH || p in APP_SHELL_PATHS[1..] + assets;
    }
    assert ShellOf(web)[HANDLE_MODE_PATH] == document;
  }

  lemma OtherPaths(assets: seq<string>, document: Response)
    requires assets == StaticAssets(document)
    ensures HANDLE_MODE_PATH !in APP_SHELL_PATHS[1..] + assets
    ensures [HANDLE_MODE_PATH] + (APP_SHELL_PATHS[1..] + assets) == APP_SHELL_PATHS + assets
  {
    ShellPathsAreDistinct();
    assert APP_SHELL_PATHS[0] == HANDLE_MODE_PATH;
    ShellPathsAreNotStatic(APP_SHELL_PATHS[0]);
  }

  lemma FillsDocument(s: State, task: Task, current: bool, web: Web)
    requires task.phase.Filling? && task.phase.h < |s.handles| && task.phase.todo == APP_SHELL_PATHS
    ensures var h, path := task.phase.h, HANDLE_MODE_PATH;
            Alone(s, task, current, web, 1)
            == if Acceptable(web, path) && 1 <= |StaticAssets(web(path).value)| <= 59
               then (Filled(s, h, Answered(web, [path])),
                     task.(phase := Filling(h, APP_SHELL_PATHS[1..] + StaticAssets(web(path).value))))
               else (s, task.(phase := Undoing(h)))
  {
    OneStep(s, task, current, web);
    var h, path := task.phase.h, HANDLE_MODE_PATH;
    hide StaticAssets;
    if Acceptable(web, path) && 1 <= |StaticAssets(web(path).value)| <= 59 {
      var r := web(path).value;
      assert Answered(web, [path]) == map[path := r];
      assert s.handles[h].content + map[path := r] == s.handles[h].content[path := r];
      assert s.handles[h].written + map[path := r] == s.handles[h].written[path := r];
    }
  }

  lemma FillsShell(s: State, task: Task, current: bool, web: Web) returns (k: nat)
    requires task.phase.Filling? && task.phase.h < |s.handles| && task.phase.todo == APP_SHELL_PATHS
    ensures var (s', task') := Alone(s, task, current, web, k);
            var h := task.phase.h;
            if CanBePopulated(web)
            then s' == Filled(s, h, ShellOf(web)) && task' == task.(phase := CheckDocument(h, Own))
            else OnlyFilled(s, s', h) && task' == task.(phase := Undoing(h))
  {
    var h, path := task.phase.h, HANDLE_MODE_PATH;
    FillsDocument(s, task, current, web);
    hide Answered, Filled, StaticAssets, APP_SHELL_PATHS, HANDLE_MODE_PATH;
    k := 1;
    if Acceptable(web, path) && 1 <= |StaticAssets(web(path).value)| <= 59 {
      var assets := StaticAssets(web(path).value);
      OtherPaths(assets, web(path).value);
      var (s', task') := Alone(s, task, current, web, 1);
      FilledIs(s, h, Answered(web, [path]));
      var j := FillsRest(s', task', current, web);
      AloneThen(s, task, current, web, 1, j);
      k := 1 + j;
      FillsMore(s, h, web, path, APP_SHELL_PATHS[1..] + assets);
    }
  }

  /** A fresh cache ends populated or given up. */
  lemma Populates(s: State, task: Task, web: Web) returns (k: nat, seen: Cache)
    requires task.goal.Attempt? && task.phase.Filling? && task.phase.h < |s.handles|
    requires task.phase.todo == APP_SHELL_PATHS && s.handles[task.phase.h].content == map[]
    ensures var (s', task') := Alone(s, task, true, web, k);
            var h := task.phase.h;
            if CanBePopulated(web)
            then s' == Filled(s, h, ShellOf(web)) && task' == task.(phase := Passed(h, seen))
            else OnlyFilled(s.(names := s.names - {RepairShell}), s', h) && task' == task.(phase := GaveUp(h))
  {
    hide Filled, ShellOf, CanBePopulated, Ready, ContentOf, Alone, Looked, APP_SHELL_PATHS;
    var h := task.phase.h;
    k := FillsShell(s, task, true, web);
    var (s', task') := Alone(s, task, true, web, k);
    seen := map[];
    if CanBePopulated(web) {
      FreshIsReady(s, h, web);
      var j;
      j, seen := Checks(s', task', true, web);
      AloneThen(s, task, true, web, k, j);
      k := k + j;
      Ends(s', task.(phase := Populated(h, seen)), web);
      AloneThen(s, task, true, web, k, 1);
    } else {
      Ends(s', task', web);
      AloneThen(s, task, true, web, k, 1);
    }
    k := k + 1;
  }

  lemma FreshIsReady(s: State, h: nat, web: Web)
    requires h < |s.handles| && s.handles[h].content == map[] && CanBePopulated(web)
    ensures var s' := Filled(s, h, ShellOf(web));
            ContentOf(s', h) == ShellOf(web) && Ready(ContentOf(s', h)) && Looked(s', h) == s'
  {
    ShellIsReady(web);
    assert map[] + ShellOf(web) == ShellOf(web);
    hide ShellOf;
    LookedIs(Filled(s, h, ShellOf(web)), h);
  }

  lemma Ends(s: State, task: Task, web: Web)
    requires task.phase.Populated? || task.phase.Undoing?
    ensures Alone(s, task, true, web, 1)
            == if task.phase.Populated? then (s, task.(phase := Passed(task.phase.h, task.phase.seen)))
               else (s.(names := s.names - {RepairShell}), task.(phase := GaveUp(task.phase.h)))
  {
    OneStep(s, task, true, web);
  }

  /** Nothing ready: a superseded worker gives up, the current one turns to a new empty cache. */
  lemma TurnsToANewCache(s: State, task: Task, web: Web)
    requires task.goal.Attempt? && task.phase.Missing?
    ensures Alone(s, task, false, web, 1) == (s, task.(phase := NotReady))
    ensures Alone(s, task, true, web, 3)
            == (s.(handles := s.handles + [Handle(map[], map[])], names := s.names[RepairShell := |s.handles|]),
                task.(phase := Filling(|s.handles|, APP_SHELL_PATHS)))
  {
    OneStep(s, task, false, web);
    OneStep(s, task, true, web);
    var s1 := s.(names := s.names - {RepairShell});
    var emptying, opening := task.(phase := Emptying), task.(phase := OpenFresh);
    OneStep(s, emptying, true, web);
    OneStep(s1, opening, true, web);
    assert (s.names - {RepairShell})[RepairShell := |s.handles|] == s.names[RepairShell := |s.handles|];
    AloneThen(s, task, true, web, 1, 1);
    AloneThen(s, task, true, web, 2, 1);
  }

  /** A new cache is all that is added: populated under the repair name, or left without a name. */
  ghost predicate Repairs(s: State, s': State, web: Web) {
    var h := |s.handles|;
    && |s'.handles| == h + 1
    && (forall g | 0 <= g < h :: IsPruned(ContentOf(s, g), ContentOf(s', g)))
    && (CanBePopulated(web) ==>
          s'.names == s.names[RepairShell := h] && ContentOf(s', h) == ShellOf(web) && Ready(ContentOf(s', h)))
    && (!CanBePopulated(web) ==> s'.names == s.names - {RepairShell})
  }

  /**
   An undisturbed attempt passes with the preferred ready cache. Without one a superseded worker gives up, and the
   current one passes exactly when the network lets it populate a new cache.
   */
  lemma UndisturbedAttempts(s: State, current: bool, web: Web) returns (k: nat)
    requires CachesInv(s)
    ensures var (s', task') := Alone(s, Task(Attempt, ReadNames), current, web, k);
            match Found(s)
            case Some(h) => OnlyLooked(s, s', current) && task'.phase.Passed? && task'.phase.h == h
            case None =>
              if !current then OnlyLooked(s, s', current) && task'.phase == NotReady
              else
                && Repairs(s, s', web)
                && (CanBePopulated(web) ==> task'.phase.Passed? && task'.phase.h == |s.handles|)
                && (!CanBePopulated(web) ==> task'.phase == GaveUp(|s.handles|))
  {
    hide Alone, OnlyLooked, LookedFor, Found, Ready, Repairs, CanBePopulated, ShellOf, Filled, OnlyFilled, CachesInv;
    hide APP_SHELL_PATHS;
    var task, s1 := Task(Attempt, ReadNames), LookedFor(s, current);
    var seen;
    k, seen := Looks(s, task, current, web);
    LookedForIs(s, current);
    if Found(s).None? {
      var missing := task.(phase := Missing);
      TurnsToANewCache(s1, missing, web);
      if !current {
        AloneThen(s, task, current, web, k, 1);
        k := k + 1;
      } else {
        AloneThen(s, task, current, web, k, 3);
        k := k + 3;
        var (s2, filling) := Alone(s1, missing, true, web, 3);
        AsManyCaches(s, s1, true);
        var j;
        j, seen := Populates(s2, filling, web);
        AloneThen(s, task, current, web, k, j);
        k := k + j;
        NewCache(s, s1, s2, Alone(s2, filling, true, web, j).0, web);
      }
    }
  }

  lemma AsManyCaches(s: State, s': State, current: bool)
    requires OnlyLooked(s, s', current)
    ensures |s'.handles| == |s.handles|
  {
  }

  lemma NewCache(s: State, s1: State, s2: State, s': State, web: Web)
    requires OnlyLooked(s, s1, true)
    requires s2 == s1.(handles := s1.handles + [Handle(map[], map[])], names := s1.names[RepairShell := |s1.handles|])
    requires if CanBePopulated(web) then s' == Filled(s2, |s.handles|, ShellOf(web))
             else OnlyFilled(s2.(names := s2.names - {RepairShell}), s', |s.handles|)
    ensures Repairs(s, s', web)
  {
    hide Ready, ShellOf, CanBePopulated, Found, Pruned;
    assert s1.names == s.names;
    assert s.names[RepairShell := |s.handles|] - {RepairShell} == s.names - {RepairShell};
    if CanBePopulated(web) { FreshIsReady(s2, |s.handles|, web); }
  }
}
