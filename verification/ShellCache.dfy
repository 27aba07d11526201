/**
 The offline shell caches of the service worker (apps/web/public/sw.js: `trimCache`, `store`,
 `handleModeOfflineReady`, `findOfflineReadyShellCache`, `populateShellCache`).

 A response is reduced to whether it passes the full check of the path it answers
 (status, URL, type, size, digest or build marker) and to the static assets its
 document links to. Between two awaits nothing else touches the caches here;
 `ShellProtocol` is about what may happen in between.
 */
module ShellCache {
  import opened Wrappers

  const MAX_CACHE_ENTRIES := 64
  const HANDLE_MODE_PATH := "/planlegg/handle"
  const APP_SHELL_PATHS: seq<string> :=
    [HANDLE_MODE_PATH, "/manifest.webmanifest", "/icons/handleplan.svg", "/icons/handleplan-maskable.svg",
     "/zod-jitless-v1.js"]
  const STATIC_PREFIX := "/_next/static/"

  const SHELL_CACHE_NAME := "shell"
  const REPAIR_SHELL_CACHE_NAME := "repair-shell"

  datatype Response = Response(accepted: bool, links: seq<string>)

  type Cache = map<string, Response>

  predicate EndsIn(path: string, ending: string) {
    |ending| <= |path| && path[|path| - |ending|..] == ending
  }

  predicate IsStaticAsset(path: string) {
    STATIC_PREFIX <= path && (EndsIn(path, ".js") || EndsIn(path, ".css"))
  }

  /** The links of a document that are install-time assets, each once. */
  function StaticAssets(r: Response): (assets: seq<string>)
    ensures forall a :: a in assets <==> a in r.links && IsStaticAsset(a)
    ensures forall i, j | 0 <= i < j < |assets| :: assets[i] != assets[j]
  {
    OnlyStatic(r.links)
  }

  function OnlyStatic(links: seq<string>): (assets: seq<string>)
    ensures forall a :: a in assets <==> a in links && IsStaticAsset(a)
    ensures forall i, j | 0 <= i < j < |assets| :: assets[i] != assets[j]
  {
    if links == [] then []
    else
      var init, last := links[..|links| - 1], links[|links| - 1];
      assert links == init + [last];
      var before := OnlyStatic(init);
      if IsStaticAsset(last) && last !in before then before + [last] else before
  }

  predicate Has(c: Cache, path: string) { path in c && c[path].accepted }

  predicate HasAll(c: Cache, paths: seq<string>) { forall p | p in paths :: Has(c, p) }

  /** Everything the shopping mode needs offline is there and passes its check. */
  predicate Ready(c: Cache) {
    && Has(c, HANDLE_MODE_PATH)
    && StaticAssets(c[HANDLE_MODE_PATH]) != []
    && HasAll(c, APP_SHELL_PATHS)
    && HasAll(c, StaticAssets(c[HANDLE_MODE_PATH]))
  }

  /** A readiness check removes a document that fails its own check. */
  function Pruned(c: Cache): Cache {
    if HANDLE_MODE_PATH in c && !c[HANDLE_MODE_PATH].accepted then c - {HANDLE_MODE_PATH} else c
  }

  /** The answer of the k-th fetch; a fetch may fail. */
  type Network = nat -> Option<Response>

  predicate Accepts(network: Network, k: nat) { network(k).Some? && network(k).value.accepted }

  ghost predicate AllAccept(network: Network, from: nat, to: nat) {
    forall k | from <= k < to :: Accepts(network, k)
  }

  // ----- When populating succeeds

  predicate AssetCountFits(n: nat) { 1 <= n <= MAX_CACHE_ENTRIES - |APP_SHELL_PATHS| }

  /** Every shell path and every asset of the fetched document answers acceptably, and the assets fit. */
  ghost predicate Populates(network: Network) {
    && Accepts(network, 0)
    && AllAccept(network, 0, |APP_SHELL_PATHS|)
    && var assets := StaticAssets(network(0).value);
       AssetCountFits(|assets|) && AllAccept(network, |APP_SHELL_PATHS|, |APP_SHELL_PATHS| + |assets|)
  }

  lemma ShellPathsAreNotStatic(path: string)
    requires path in APP_SHELL_PATHS
    ensures !(STATIC_PREFIX <= path)
  {
    assert STATIC_PREFIX[1] == '_';
    var i :| 0 <= i < |APP_SHELL_PATHS| && APP_SHELL_PATHS[i] == path;
    assert path[1] != '_';
  }

  class ServiceWorker {
    var caches: map<string, Cache>

    constructor ()
      ensures caches == map[]
    {
      caches := map[];
    }

    /** One pass over some paths of a cache. */
    method CheckPaths(name: string, paths: seq<string>) returns (ok: bool)
      requires name in caches
      ensures ok == HasAll(caches[name], paths)
    {
      for i := 0 to |paths|
        invariant HasAll(caches[name], paths[..i])
      {
        if !Has(caches[name], paths[i]) {
          assert paths[i] in paths;
          return false;
        }
        assert paths[..i + 1] == paths[..i] + [paths[i]];
      }
      assert paths[..|paths|] == paths;
      return true;
    }

    method HandleModeOfflineReady(name: string) returns (ready: bool)
      requires name in caches
      modifies this
      ensures ready == Ready(old(caches)[name])
      ensures caches == old(caches)[name := Pruned(old(caches)[name])]
    {
      var cache := caches[name];
      if !Has(cache, HANDLE_MODE_PATH) {
        caches := caches[name := Pruned(cache)];
        return false;
      }
      assert caches[name := Pruned(cache)] == caches;
      if StaticAssets(cache[HANDLE_MODE_PATH]) == [] {
        return false;
      }
      ready := CheckPaths(name, APP_SHELL_PATHS);
      if ready {
        ready := CheckPaths(name, StaticAssets(cache[HANDLE_MODE_PATH]));
      }
    }

    /**
     A repaired shell is preferred to the installed one, and both only when ready.
     Looking creates no cache; a superseded worker drops what it finds unready.
     */
    method FindOfflineReadyShellCache(current: bool) returns (found: Option<string>)
      modifies this
      ensures found.Some? ==>
                && IsReady(caches, found.value) && found.value in old(caches)
                && caches[found.value] == old(caches)[found.value]
      ensures found == Some(REPAIR_SHELL_CACHE_NAME) <==> IsReady(old(caches), REPAIR_SHELL_CACHE_NAME)
      ensures found == Some(SHELL_CACHE_NAME) <==>
                IsReady(old(caches), SHELL_CACHE_NAME) && !IsReady(old(caches), REPAIR_SHELL_CACHE_NAME)
      ensures found.Some? ==> found.value in {SHELL_CACHE_NAME, REPAIR_SHELL_CACHE_NAME}
      ensures caches.Keys <= old(caches).Keys && (current ==> caches.Keys == old(caches).Keys)
      ensures forall name | name in old(caches) && name != SHELL_CACHE_NAME && name != REPAIR_SHELL_CACHE_NAME ::
                name in caches && caches[name] == old(caches)[name]
    {
      assert SHELL_CACHE_NAME[0] != REPAIR_SHELL_CACHE_NAME[0];
      if REPAIR_SHELL_CACHE_NAME in caches {
        var ready := HandleModeOfflineReady(REPAIR_SHELL_CACHE_NAME);
        if ready {
          return Some(REPAIR_SHELL_CACHE_NAME);
        }
        if !current {
          caches := caches - {REPAIR_SHELL_CACHE_NAME};
        }
      }
      if SHELL_CACHE_NAME !in caches {
        return None;
      }
      var ready := HandleModeOfflineReady(SHELL_CACHE_NAME);
      if ready {
        return Some(SHELL_CACHE_NAME);
      }
      if !current {
        caches := caches - {SHELL_CACHE_NAME};
      }
      return None;
    }

    /** Fetches and stores paths until one is not acceptable. `at` fetches happened before. */
    method FetchAll(name: string, network: Network, at: nat, paths: seq<string>) returns (ok: bool)
      requires name in caches
      modifies this
      ensures ok <==> AllAccept(network, at, at + |paths|)
      ensures name in caches && caches - {name} == old(caches) - {name}
      ensures ok ==> Filled(old(caches)[name], caches[name], network, at, paths)
    {
      for i := 0 to |paths|
        invariant name in caches && caches - {name} == old(caches) - {name}
        invariant AllAccept(network, at, at + i)
        invariant Filled(old(caches)[name], caches[name], network, at, paths[..i])
      {
        if !Accepts(network, at + i) {
          return false;
        }
        FilledMore(old(caches)[name], caches[name], network, at, paths, i);
        caches := caches[name := caches[name][paths[i] := network(at + i).value]];
      }
      assert paths[..|paths|] == paths;
      return true;
    }

    /** Ends with a ready cache or without that cache; it succeeds exactly when the network lets it. */
    method PopulateShellCache(name: string, network: Network) returns (ok: bool)
      modifies this
      ensures ok <==> Populates(network)
      ensures ok ==> IsReady(caches, name) && |caches[name]| <= MAX_CACHE_ENTRIES
      ensures !ok ==> name !in caches
      ensures caches - {name} == old(caches) - {name}
    {
      caches := caches[name := map[]];
      ok := FillShell(name, network);
      if ok {
        ghost var filled := caches;
        ok := HandleModeOfflineReady(name);
        assert Pruned(filled[name]) == filled[name] && caches == filled;
      }
      if !ok {
        caches := caches - {name};
      }
      assert (old(caches)[name := map[]]) - {name} == old(caches) - {name};
    }

    method FillShell(name: string, network: Network) returns (ok: bool)
      requires name in caches && caches[name] == map[]
      modifies this
      ensures ok <==> Populates(network)
      ensures name in caches && caches - {name} == old(caches) - {name}
      ensures ok ==> Ready(caches[name]) && |caches[name]| <= MAX_CACHE_ENTRIES
    {
      hide Filled, StaticAssets, Ready, AllAccept;
      ok := FetchAll(name, network, 0, APP_SHELL_PATHS);
      if ok {
        DocumentIsTheFirstAnswer(caches[name], network);
        ok := FillAssets(name, network);
      }
    }

    /** The assets of the fetched document, if they fit. */
    method FillAssets(name: string, network: Network) returns (ok: bool)
      requires name in caches && Filled(map[], caches[name], network, 0, APP_SHELL_PATHS)
      requires Has(caches[name], HANDLE_MODE_PATH)
      modifies this
      ensures name in caches && caches - {name} == old(caches) - {name}
      ensures var assets := StaticAssets(old(caches)[name][HANDLE_MODE_PATH]);
              ok <==> AssetCountFits(|assets|) && AllAccept(network, |APP_SHELL_PATHS|, |APP_SHELL_PATHS| + |assets|)
      ensures ok ==> Ready(caches[name]) && |caches[name]| <= MAX_CACHE_ENTRIES
    {
      hide Filled, StaticAssets, Ready, AllAccept;
      var assets := StaticAssets(caches[name][HANDLE_MODE_PATH]);
      if !AssetCountFits(|assets|) {
        return false;
      }
      ghost var shell := caches[name];
      ok := FetchAll(name, network, |APP_SHELL_PATHS|, assets);
      if ok {
        FilledIsReady(shell, caches[name], network, assets);
      }
    }
  }

  predicate IsReady(caches: map<string, Cache>, name: string) { name in caches && Ready(caches[name]) }

  /** `after` is `before` with the paths stored; what is not one of them is unchanged. */
  ghost predicate Filled(before: Cache, after: Cache, network: Network, at: nat, paths: seq<string>) {
    && HasAll(after, paths)
    && after.Keys == before.Keys + (set p | p in paths)
    && (forall p | p in before && p !in paths :: after[p] == before[p])
    && (forall p | p in paths :: exists k :: 0 <= k < |paths| && paths[k] == p && network(at + k) == Some(after[p]))
  }

  lemma FilledMore(before: Cache, after: Cache, network: Network, at: nat, paths: seq<string>, i: nat)
    requires i < |paths| && Filled(before, after, network, at, paths[..i]) && Accepts(network, at + i)
    ensures Filled(before, after[paths[i] := network(at + i).value], network, at, paths[..i + 1])
  {
    var next, done := after[paths[i] := network(at + i).value], paths[..i + 1];
    assert done == paths[..i] + [paths[i]];
    forall p | p in done ensures exists k :: 0 <= k < |done| && done[k] == p && network(at + k) == Some(next[p]) {
      if p == paths[i] {
        assert done[i] == p && network(at + i) == Some(next[p]);
      } else {
        var k :| 0 <= k < i && paths[..i][k] == p && network(at + k) == Some(after[p]);
        assert done[k] == p;
      }
    }
  }

  lemma DocumentIsTheFirstAnswer(shell: Cache, network: Network)
    requires Filled(map[], shell, network, 0, APP_SHELL_PATHS)
    ensures Has(shell, HANDLE_MODE_PATH) && network(0) == Some(shell[HANDLE_MODE_PATH])
  {
    assert APP_SHELL_PATHS[0] in APP_SHELL_PATHS;
    var k :| 0 <= k < |APP_SHELL_PATHS| && APP_SHELL_PATHS[k] == HANDLE_MODE_PATH
      && network(0 + k) == Some(shell[HANDLE_MODE_PATH]);
    OnlyTheFirstIsTheDocument(k);
  }

  lemma OnlyTheFirstIsTheDocument(k: nat)
    requires k < |APP_SHELL_PATHS| && APP_SHELL_PATHS[k] == HANDLE_MODE_PATH
    ensures k == 0
  {
    assert |HANDLE_MODE_PATH| == 16;
    assert |APP_SHELL_PATHS[k]| == if k == 1 || k == 2 then 21 else if k == 3 then 30 else if k == 4 then 18 else 16;
  }

  lemma {:induction false} SetSize(paths: seq<string>)
    ensures |set p | p in paths| <= |paths|
  {
    if paths != [] {
      var init, last := paths[..|paths| - 1], paths[|paths| - 1];
      SetSize(init);
      assert paths == init + [last];
      assert (set p | p in paths) == (set p | p in init) + {last};
    }
  }

  lemma FilledIsReady(shell: Cache, full: Cache, network: Network, assets: seq<string>)
    requires Filled(map[], shell, network, 0, APP_SHELL_PATHS) && Has(shell, HANDLE_MODE_PATH)
    requires assets == StaticAssets(shell[HANDLE_MODE_PATH]) && AssetCountFits(|assets|)
    requires Filled(shell, full, network, |APP_SHELL_PATHS|, assets)
    ensures Ready(full) && |full| <= MAX_CACHE_ENTRIES
  {
    forall p | p in APP_SHELL_PATHS ensures p in full && full[p] == shell[p] {
      ShellPathsAreNotStatic(p);
    }
    assert APP_SHELL_PATHS[0] in APP_SHELL_PATHS;
    SetSize(APP_SHELL_PATHS);
    SetSize(assets);
    assert |full| == |full.Keys|;
  }

  // ----- The bounded store

  function Keep(keys: seq<string>, shell: bool): seq<string> {
    if keys == [] then []
    else (if (keys[0] in APP_SHELL_PATHS) == shell then [keys[0]] else []) + Keep(keys[1..], shell)
  }

  ghost predicate Distinct(keys: seq<string>) {
    forall i, j | 0 <= i < j < |keys| :: keys[i] != keys[j]
  }

  lemma {:induction false} KeepMembers(keys: seq<string>, shell: bool)
    ensures forall k :: k in Keep(keys, shell) <==> k in keys && (k in APP_SHELL_PATHS) == shell
    ensures Distinct(keys) ==> Distinct(Keep(keys, shell))
  {
    if keys != [] {
      KeepMembers(keys[1..], shell);
      assert keys == [keys[0]] + keys[1..];
      if Distinct(keys) {
        assert Distinct(keys[1..]) && keys[0] !in keys[1..];
      }
    }
  }

  lemma {:induction false} KeepSplits(keys: seq<string>)
    ensures |Keep(keys, true)| + |Keep(keys, false)| == |keys|
  {
    if keys != [] { KeepSplits(keys[1..]); }
  }

  lemma {:induction false} DistinctWithin(keys: seq<string>, paths: set<string>)
    requires Distinct(keys) && forall k | k in keys :: k in paths
    ensures |keys| <= |paths|
  {
    if keys != [] {
      var last := keys[|keys| - 1];
      DistinctWithin(keys[..|keys| - 1], paths - {last});
    }
  }

  /** Every overflow has enough removable entries. */
  lemma EnoughToRemove(keys: seq<string>)
    requires Distinct(keys)
    ensures |Keep(keys, false)| >= |keys| - |APP_SHELL_PATHS|
  {
    KeepMembers(keys, true);
    KeepSplits(keys);
    DistinctWithin(Keep(keys, true), set p | p in APP_SHELL_PATHS);
    SetSize(APP_SHELL_PATHS);
  }

  function Without(keys: seq<string>, removed: set<string>): seq<string> {
    if keys == [] then [] else (if keys[0] in removed then [] else [keys[0]]) + Without(keys[1..], removed)
  }

  lemma {:induction false} WithoutSize(keys: seq<string>, removed: set<string>)
    requires Distinct(keys) && forall r | r in removed :: r in keys
    ensures |Without(keys, removed)| == |keys| - |removed|
    ensures forall k :: k in Without(keys, removed) <==> k in keys && k !in removed
  {
    if keys != [] {
      var rest := removed - {keys[0]};
      assert keys == [keys[0]] + keys[1..];
      assert keys[0] !in keys[1..];
      WithoutSize(keys[1..], rest);
      SameWithout(keys[1..], removed, rest, keys[0]);
      if keys[0] in removed { assert |rest| == |removed| - 1; } else { assert rest == removed; }
    }
  }

  lemma {:induction false} SameWithout(keys: seq<string>, a: set<string>, b: set<string>, x: string)
    requires x !in keys && b == a - {x}
    ensures Without(keys, a) == Without(keys, b)
  {
    if keys != [] {
      assert keys[0] in keys;
      assert forall k | k in keys[1..] :: k in keys;
      SameWithout(keys[1..], a, b, x);
    }
  }

  /** What is left when the oldest removable entries of an overflow are gone. */
  function Trimmed(keys: seq<string>): seq<string> {
    if |keys| <= MAX_CACHE_ENTRIES then keys else Without(keys, Oldest(keys, |keys| - MAX_CACHE_ENTRIES))
  }

  lemma TrimmedKeys(keys: seq<string>)
    requires Distinct(keys)
    ensures Distinct(Trimmed(keys))
    ensures |Trimmed(keys)| == if |keys| <= MAX_CACHE_ENTRIES then |keys| else MAX_CACHE_ENTRIES
    ensures forall k | k in keys && k in APP_SHELL_PATHS :: k in Trimmed(keys)
    ensures forall k | k in Trimmed(keys) :: k in keys
  {
    hide Keep, Without, Oldest, Distinct;
    if |keys| > MAX_CACHE_ENTRIES {
      var overflow := |keys| - MAX_CACHE_ENTRIES;
      EnoughToRemove(keys);
      OldestSize(keys, overflow);
      WithoutSize(keys, Oldest(keys, overflow));
      WithoutMembers(keys, Oldest(keys, overflow));
    }
  }

  /** After a bounded store at most 64 entries are left, in order, and no shell path is evicted. */
  method TrimCache(keys: seq<string>) returns (kept: seq<string>)
    requires Distinct(keys)
    ensures kept == Trimmed(keys) && Distinct(kept)
    ensures |kept| == if |keys| <= MAX_CACHE_ENTRIES then |keys| else MAX_CACHE_ENTRIES
    ensures forall k | k in keys && k in APP_SHELL_PATHS :: k in kept
    ensures forall k | k in kept :: k in keys
  {
    hide Keep, Without, Oldest, Distinct;
    TrimmedKeys(keys);
    var overflow := |keys| - MAX_CACHE_ENTRIES;
    if overflow <= 0 {
      return keys;
    }
    kept := Without(keys, Oldest(keys, overflow));
  }

  /** The first removable entries. */
  function Oldest(keys: seq<string>, n: nat): set<string> {
    var removable := Keep(keys, false);
    var first := if n <= |removable| then removable[..n] else removable;
    set k | k in first
  }

  lemma OldestSize(keys: seq<string>, n: nat)
    requires Distinct(keys) && n <= |Keep(keys, false)|
    ensures |Oldest(keys, n)| == n
    ensures forall k | k in Oldest(keys, n) :: k in keys && k !in APP_SHELL_PATHS
  {
    KeepMembers(keys, false);
    var chosen := Keep(keys, false)[..n];
    assert Distinct(chosen);
    SetSizeDistinct(chosen);
  }

  lemma {:induction false} SetSizeDistinct(keys: seq<string>)
    requires Distinct(keys)
    ensures |set k | k in keys| == |keys|
  {
    if keys != [] {
      var init, last := keys[..|keys| - 1], keys[|keys| - 1];
      SetSizeDistinct(init);
      assert keys == init + [last];
      assert (set k | k in keys) == (set k | k in init) + {last};
      assert last !in init;
    }
  }

  /** A cache as `store` sees it: its keys in insertion order and what they answer. */
  class BoundedCache {
    var keys: seq<string>
    var entries: Cache

    ghost predicate Valid()
      reads this
    {
      Distinct(keys) && forall k :: k in keys <==> k in entries
    }

    constructor ()
      ensures Valid() && keys == []
    {
      keys, entries := [], map[];
    }

    /** A put moves its key to the end. */
    method Put(path: string, response: Response)
      requires Valid()
      modifies this
      ensures Valid()
      ensures entries == old(entries)[path := response]
      ensures keys == Without(old(keys), {path}) + [path]
    {
      WithoutMembers(keys, {path});
      keys := Without(keys, {path}) + [path];
      entries := entries[path := response];
    }

    /** Leaves at most 64 entries, every shell path among them, and changes no answer. */
    method Trim()
      requires Valid()
      modifies this
      ensures Valid()
      ensures keys == Trimmed(old(keys)) && |keys| <= MAX_CACHE_ENTRIES
      ensures forall k | k in old(entries) && k in APP_SHELL_PATHS :: k in entries
      ensures forall k | k in entries :: k in old(entries) && entries[k] == old(entries)[k]
    {
      var kept := TrimCache(keys);
      hide *;
      entries := map k | k in kept && k in entries :: entries[k];
      keys := kept;
    }

    /**
     Put, then trim: at most 64 entries are left, no shell path is evicted, and an
     entry that is still there answers as before, the stored one with its response.
     */
    method Store(path: string, response: Response, storable: bool, bounded: bool)
      requires Valid()
      modifies this
      ensures Valid()
      ensures !storable ==> keys == old(keys) && entries == old(entries)
      ensures storable && bounded ==> |keys| <= MAX_CACHE_ENTRIES
      ensures storable && !bounded ==> entries == old(entries)[path := response]
      ensures forall k | k in old(entries) && k in APP_SHELL_PATHS :: k in entries
      ensures storable && path in APP_SHELL_PATHS ==> path in entries
      ensures forall k | k in entries && (!storable || k != path) :: k in old(entries) && entries[k] == old(entries)[k]
      ensures storable && path in entries ==> entries[path] == response
    {
      hide Distinct, Without, Trimmed;
      if !storable {
        return;
      }
      Put(path, response);
      if bounded {
        Trim();
      }
    }
  }

  lemma {:induction false} WithoutMembers(keys: seq<string>, removed: set<string>)
    requires Distinct(keys)
    ensures Distinct(Without(keys, removed))
    ensures forall k :: k in Without(keys, removed) <==> k in keys && k !in removed
  {
    if keys != [] {
      var rest := keys[1..];
      assert keys == [keys[0]] + rest && keys[0] !in rest;
      WithoutMembers(rest, removed);
    }
  }

  // ----- The asset rules

  /** A static asset is a script or a style sheet below the static prefix. */
  lemma StaticAssetsAre(path: string)
    ensures IsStaticAsset(path) <==>
              && "/_next/static/" <= path
              && ((exists name :: path == name + ".js") || (exists name :: path == name + ".css"))
  {
    EndsInIs(path, ".js");
    EndsInIs(path, ".css");
    hide EndsIn;
  }

  lemma EndsInIs(path: string, ending: string)
    ensures EndsIn(path, ending) <==> exists name :: path == name + ending
  {
    if EndsIn(path, ending) { assert path == path[..|path| - |ending|] + ending; }
    if name :| path == name + ending { assert path[|name|..] == ending; }
  }

  /** One to fifty-nine assets fit beside the five shell paths. */
  lemma FittingAssetCounts(n: nat)
    ensures AssetCountFits(n) <==> 1 <= n <= 59
  {
  }
}
