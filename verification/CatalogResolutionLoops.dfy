/**
 The loops of `canonicalCatalogOutcomes` (apps/worker/src/kassalapp-handlers.ts):
 two insertion-ordered maps, a list of conflicts appended after the other entries
 and a sort by first index. They compute `Resolve`.
 */
module CatalogResolutionLoops {
  import opened CatalogResolution

  datatype Members = Members(first: nat, candidates: seq<Candidate>)

  // ----- First map: candidates by source record id

  ghost predicate Grouped(cs: seq<Candidate>, order: seq<string>, groups: map<string, Members>) {
    && order == Ids(cs)
    && (forall id :: id in groups <==> id in order)
    && (forall id | id in order :: groups[id] == Members(First(cs, id), Group(cs, id)))
  }

  lemma {:induction false} NoGroupBefore(cs: seq<Candidate>, id: string)
    requires id !in Ids(cs)
    ensures Group(cs, id) == []
  {
    GroupMembers(cs, id);
  }

  /** What one more candidate does to the group and first index of an id. */
  lemma GroupStep(cs: seq<Candidate>, i: nat, id: string)
    requires i < |cs|
    ensures Ids(cs[..i + 1])
            == (if cs[i].outcome.id in Ids(cs[..i]) then Ids(cs[..i]) else Ids(cs[..i]) + [cs[i].outcome.id])
    ensures Group(cs[..i + 1], id)
            == (if cs[i].outcome.id == id then Group(cs[..i], id) + [cs[i]] else Group(cs[..i], id))
    ensures id in Ids(cs[..i]) ==> First(cs[..i + 1], id) == First(cs[..i], id)
    ensures id == cs[i].outcome.id && id !in Ids(cs[..i]) ==> First(cs[..i + 1], id) == i && Group(cs[..i], id) == []
  {
    var grown := cs[..i + 1];
    assert grown[..i] == cs[..i];
    if id in Ids(cs[..i]) { FirstInPrefix(grown, id); } else { NoGroupBefore(cs[..i], id); }
  }

  lemma GroupedStep(cs: seq<Candidate>, order: seq<string>, groups: map<string, Members>, i: nat, order': seq<string>,
                    groups': map<string, Members>)
    requires i < |cs| && Grouped(cs[..i], order, groups)
    requires var id := cs[i].outcome.id;
             if id in groups
             then order' == order && groups' == groups[id := Members(groups[id].first, groups[id].candidates + [cs[i]])]
             else order' == order + [id] && groups' == groups[id := Members(i, [cs[i]])]
    ensures Grouped(cs[..i + 1], order', groups')
  {
    hide First, Group, Ids;
    GroupStep(cs, i, cs[i].outcome.id);
    forall id | id in order' ensures groups'[id] == Members(First(cs[..i + 1], id), Group(cs[..i + 1], id)) {
      GroupStep(cs, i, id);
    }
  }

  method GroupBySourceRecordId(cs: seq<Candidate>) returns (order: seq<string>, groups: map<string, Members>)
    ensures Grouped(cs, order, groups)
  {
    order, groups := [], map[];
    for i := 0 to |cs|
      invariant Grouped(cs[..i], order, groups)
    {
      ghost var order0, groups0 := order, groups;
      var id := cs[i].outcome.id;
      if id in groups {
        groups := groups[id := Members(groups[id].first, groups[id].candidates + [cs[i]])];
      } else {
        order, groups := order + [id], groups[id := Members(i, [cs[i]])];
      }
      GroupedStep(cs, order0, groups0, i, order, groups);
    }
    assert cs[..|cs|] == cs;
  }

  method CanonicalBySourceRecordId(cs: seq<Candidate>) returns (entries: seq<Entry>)
    ensures entries == Entries(cs)
  {
    var order, groups := GroupBySourceRecordId(cs);
    assert order == Ids(cs);
    hide Grouped, Ids, EntryOf, Entries, EntriesSoFar;
    NoEntriesYet(cs);
    entries := [];
    for k := 0 to |order|
      invariant |entries| == k && EntriesSoFar(cs, entries)
    {
      var entry := CanonicalEntry(cs, order, groups, order[k]);
      OneEntryMore(cs, entries);
      entries := entries + [entry];
    }
    EntriesAreComplete(cs, entries);
  }

  ghost predicate EntriesSoFar(cs: seq<Candidate>, entries: seq<Entry>) {
    |entries| <= |Ids(cs)| && forall k | 0 <= k < |entries| :: entries[k] == EntryOf(cs, Ids(cs)[k])
  }

  lemma NoEntriesYet(cs: seq<Candidate>)
    ensures EntriesSoFar(cs, [])
  {
  }

  lemma OneEntryMore(cs: seq<Candidate>, entries: seq<Entry>)
    requires EntriesSoFar(cs, entries) && |entries| < |Ids(cs)|
    ensures EntriesSoFar(cs, entries + [EntryOf(cs, Ids(cs)[|entries|])])
  {
    hide EntryOf;
  }

  lemma EntriesAreComplete(cs: seq<Candidate>, entries: seq<Entry>)
    requires EntriesSoFar(cs, entries) && |entries| == |Ids(cs)|
    ensures entries == Entries(cs)
  {
  }

  method CanonicalEntry(cs: seq<Candidate>, order: seq<string>, groups: map<string, Members>, id: string)
    returns (entry: Entry)
    requires Grouped(cs, order, groups) && id in order
    ensures entry == EntryOf(cs, id)
  {
    GroupedEntry(cs, order, groups, id);
    entry := Entry(groups[id].first, Canonical(id, groups[id].candidates));
  }

  lemma GroupedEntry(cs: seq<Candidate>, order: seq<string>, groups: map<string, Members>, id: string)
    requires Grouped(cs, order, groups) && id in order
    ensures groups[id].candidates != []
            && EntryOf(cs, id) == Entry(groups[id].first, Canonical(id, groups[id].candidates))
  {
    GroupMembers(cs, id);
  }

  // ----- Second map: accepted entries by GTIN

  function Rivals(entries: seq<Entry>, ean: string): seq<Entry> {
    if entries == [] then []
    else
      var before, last := Rivals(entries[..|entries| - 1], ean), entries[|entries| - 1];
      if Claims(last, ean) then before + [last] else before
  }

  lemma {:induction false} RivalsAreTheClaims(entries: seq<Entry>, ean: string)
    ensures forall e :: e in Rivals(entries, ean) <==> e in entries && Claims(e, ean)
  {
    if entries != [] {
      var init := entries[..|entries| - 1];
      RivalsAreTheClaims(init, ean);
      assert entries == init + [entries[|entries| - 1]];
    }
  }

  ghost predicate ByEan(entries: seq<Entry>, order: seq<string>, groups: map<string, seq<Entry>>) {
    && (forall i, j | 0 <= i < j < |order| :: order[i] != order[j])
    && (forall ean :: ean in groups <==> ean in order)
    && (forall ean | ean in order :: groups[ean] == Rivals(entries, ean))
    && (forall e | e in entries && e.outcome.Accepted? :: e.outcome.ean in order)
  }

  lemma {:induction false} NoRivalsBefore(entries: seq<Entry>, ean: string)
    requires forall e | e in entries && e.outcome.Accepted? :: e.outcome.ean != ean
    ensures Rivals(entries, ean) == []
  {
    if entries != [] {
      assert entries[|entries| - 1] in entries;
      NoRivalsBefore(entries[..|entries| - 1], ean);
    }
  }

  lemma ByEanStep(entries: seq<Entry>, order: seq<string>, groups: map<string, seq<Entry>>, k: nat,
                  order': seq<string>, groups': map<string, seq<Entry>>)
    requires k < |entries| && ByEan(entries[..k], order, groups)
    requires var o := entries[k].outcome;
             if !o.Accepted? then order' == order && groups' == groups
             else if o.ean in groups then order' == order && groups' == groups[o.ean := groups[o.ean] + [entries[k]]]
             else order' == order + [o.ean] && groups' == groups[o.ean := [entries[k]]]
    ensures ByEan(entries[..k + 1], order', groups')
  {
    var grown := entries[..k + 1];
    assert grown[..k] == entries[..k] && grown == entries[..k] + [entries[k]];
    var o := entries[k].outcome;
    if o.Accepted? && o.ean !in groups { NoRivalsBefore(entries[..k], o.ean); }
    forall ean | ean in order' ensures groups'[ean] == Rivals(grown, ean) {
    }
  }

  method GroupAcceptedByEan(entries: seq<Entry>) returns (order: seq<string>, groups: map<string, seq<Entry>>)
    ensures ByEan(entries, order, groups)
  {
    order, groups := [], map[];
    for k := 0 to |entries|
      invariant ByEan(entries[..k], order, groups)
    {
      ghost var order0, groups0 := order, groups;
      var o := entries[k].outcome;
      if o.Accepted? {
        if o.ean in groups {
          groups := groups[o.ean := groups[o.ean] + [entries[k]]];
        } else {
          order, groups := order + [o.ean], groups[o.ean := [entries[k]]];
        }
      }
      ByEanStep(entries, order0, groups0, k, order, groups);
    }
    assert entries[..|entries|] == entries;
  }

  // ----- Conflicts, concatenation and sort

  /** Entries in the order of strictly increasing first indices, each with its own record id. */
  ghost predicate Ordered(entries: seq<Entry>) {
    forall i, j | 0 <= i < j < |entries| :: entries[i].index < entries[j].index
  }

  ghost predicate DistinctIndices(entries: seq<Entry>) {
    forall i, j | 0 <= i < j < |entries| :: entries[i].index != entries[j].index
  }

  ghost predicate DistinctIds(entries: seq<Entry>) {
    forall i, j | 0 <= i < j < |entries| :: entries[i].outcome.id != entries[j].outcome.id
  }

  lemma EntriesAreOrdered(cs: seq<Candidate>)
    ensures Ordered(Entries(cs)) && DistinctIds(Entries(cs))
  {
    OneOutcomePerRecordId(cs);
    forall k | 0 <= k < |Ids(cs)| ensures Entries(cs)[k].outcome.id == Ids(cs)[k] {
      CanonicalHasItsId(cs, Ids(cs)[k]);
    }
  }

  lemma {:induction false} RivalsAreDistinct(entries: seq<Entry>, ean: string)
    requires DistinctIds(entries) && Ordered(entries)
    ensures DistinctIds(Rivals(entries, ean)) && DistinctIndices(Rivals(entries, ean))
  {
    if entries != [] {
      var init := entries[..|entries| - 1];
      RivalsAreDistinct(init, ean);
      RivalsAreTheClaims(init, ean);
      var before := Rivals(init, ean);
      forall i | 0 <= i < |before|
        ensures before[i].outcome.id != entries[|init|].outcome.id && before[i].index != entries[|init|].index
      {
        assert before[i] in init;
      }
    }
  }

  lemma {:induction false} DistinctIdsCount(group: seq<Entry>)
    requires DistinctIds(group)
    ensures |set e | e in group :: e.outcome.id| == |group|
  {
    var all := set e | e in group :: e.outcome.id;
    if group != [] {
      var init, last := group[..|group| - 1], group[|group| - 1];
      DistinctIdsCount(init);
      var before := set e | e in init :: e.outcome.id;
      assert group == init + [last];
      assert all == before + {last.outcome.id};
      assert last.outcome.id !in before;
    }
  }

  /** The size of a GTIN's group is the number of ids claiming it. */
  lemma RivalsCount(entries: seq<Entry>, ean: string)
    requires DistinctIds(entries) && Ordered(entries)
    ensures |Rivals(entries, ean)| == |RivalIds(entries, ean)|
  {
    RivalsAreDistinct(entries, ean);
    RivalsAreTheClaims(entries, ean);
    DistinctIdsCount(Rivals(entries, ean));
    assert RivalIds(entries, ean) == set e | e in Rivals(entries, ean) :: e.outcome.id;
  }

  /** `x` is the settled form of an entry in `done`. */
  ghost predicate IsSettledOf(entries: seq<Entry>, done: set<Entry>, x: Entry) {
    exists e :: e in entries && e in done && x == Settle(entries, e)
  }

  /** `list` holds, once each, the settled forms of the entries in `done`. */
  ghost predicate Holds(entries: seq<Entry>, list: seq<Entry>, done: set<Entry>) {
    && DistinctIndices(list)
    && (forall x | x in list :: IsSettledOf(entries, done, x))
    && (forall e | e in entries && e in done :: Settle(entries, e) in list)
  }

  lemma SameIndexSameEntry(entries: seq<Entry>, e: Entry, f: Entry)
    requires Ordered(entries) && e in entries && f in entries && e.index == f.index
    ensures e == f
  {
    var i :| 0 <= i < |entries| && entries[i] == e;
    var j :| 0 <= j < |entries| && entries[j] == f;
  }

  lemma SettledMore(entries: seq<Entry>, done: set<Entry>, more: set<Entry>, x: Entry)
    requires IsSettledOf(entries, done, x) && done <= more
    ensures IsSettledOf(entries, more, x)
  {
    var e :| e in entries && e in done && x == Settle(entries, e);
    assert e in more;
  }

  lemma HoldsMore(entries: seq<Entry>, list: seq<Entry>, done: set<Entry>, e: Entry, x: Entry)
    requires Ordered(entries) && Holds(entries, list, done) && e in entries && e !in done && x == Settle(entries, e)
    ensures Holds(entries, list + [x], done + {e})
  {
    var grown, more := list + [x], done + {e};
    forall i | 0 <= i < |list| ensures list[i].index != e.index {
      assert IsSettledOf(entries, done, list[i]);
      var f :| f in entries && f in done && list[i] == Settle(entries, f);
      if f.index == e.index { SameIndexSameEntry(entries, e, f); }
    }
    forall y | y in grown ensures IsSettledOf(entries, more, y) {
      if y in list { SettledMore(entries, done, more, y); } else { assert e in more && y == x; }
    }
    assert grown[|list|] == x;
  }

  lemma RivalSettles(entries: seq<Entry>, ean: string, e: Entry)
    requires DistinctIds(entries) && Ordered(entries)
    requires e in Rivals(entries, ean) && |Rivals(entries, ean)| >= 2
    ensures e in entries && Settle(entries, e) == e.(outcome := EanConflict(e.outcome.id, ean, RivalIds(entries, ean)))
  {
    RivalsCount(entries, ean);
    RivalsAreTheClaims(entries, ean);
  }

  function SetOf(list: seq<Entry>): set<Entry> {
    set e | e in list
  }

  lemma NotYetTaken(group: seq<Entry>, i: nat)
    requires DistinctIndices(group) && i < |group|
    ensures group[i] !in group[..i]
    ensures SetOf(group[..i + 1]) == SetOf(group[..i]) + {group[i]}
  {
    assert group[..i + 1] == group[..i] + [group[i]];
  }

  lemma IdsOfRivals(entries: seq<Entry>, ean: string)
    ensures (set e | e in Rivals(entries, ean) :: e.outcome.id) == RivalIds(entries, ean)
  {
    RivalsAreTheClaims(entries, ean);
  }

  /** The conflict entries of one GTIN's group. */
  method AppendGroupConflicts(entries: seq<Entry>, list: seq<Entry>, ghost done: set<Entry>, ean: string,
                              group: seq<Entry>)
    returns (list': seq<Entry>, conflicting: set<Entry>)
    requires Ordered(entries) && DistinctIds(entries) && Holds(entries, list, done)
    requires group == Rivals(entries, ean) && |group| >= 2 && (forall e | e in group :: e !in done)
    ensures conflicting == SetOf(group)
    ensures Holds(entries, list', done + conflicting)
  {
    RivalsAreDistinct(entries, ean);
    IdsOfRivals(entries, ean);
    var ids := set e | e in group :: e.outcome.id;
    list', conflicting := list, {};
    assert done + conflicting == done;
    for i := 0 to |group|
      invariant conflicting == SetOf(group[..i])
      invariant Holds(entries, list', done + conflicting)
    {
      NotYetTaken(group, i);
      list', conflicting := AppendConflict(entries, list', done, conflicting, ean, group[i], ids);
    }
    assert group[..|group|] == group;
  }

  method AppendConflict(entries: seq<Entry>, list: seq<Entry>, ghost done: set<Entry>, conflicting: set<Entry>,
                        ean: string, e: Entry, ids: set<string>) returns (list': seq<Entry>, conflicting': set<Entry>)
    requires Ordered(entries) && DistinctIds(entries) && Holds(entries, list, done + conflicting)
    requires e in Rivals(entries, ean) && |Rivals(entries, ean)| >= 2 && ids == RivalIds(entries, ean)
    requires e !in done && e !in conflicting
    ensures conflicting' == conflicting + {e}
    ensures Holds(entries, list', done + conflicting')
  {
    RivalSettles(entries, ean, e);
    var conflict := e.(outcome := EanConflict(e.outcome.id, ean, ids));
    HoldsMore(entries, list, done + conflicting, e, conflict);
    list', conflicting' := list + [conflict], conflicting + {e};
    assert done + conflicting + {e} == done + conflicting';
  }

  predicate IsConflicting(entries: seq<Entry>, e: Entry) {
    e.outcome.Accepted? && |RivalIds(entries, e.outcome.ean)| >= 2
  }

  method EanConflicts(entries: seq<Entry>) returns (conflicts: seq<Entry>, conflicting: set<Entry>)
    requires Ordered(entries) && DistinctIds(entries)
    ensures Holds(entries, conflicts, conflicting)
    ensures forall e | e in entries :: e in conflicting <==> IsConflicting(entries, e)
  {
    var order, groups := GroupAcceptedByEan(entries);
    conflicts, conflicting := [], {};
    for k := 0 to |order|
      invariant Holds(entries, conflicts, conflicting)
      invariant forall e | e in entries ::
                  e in conflicting <==> IsConflicting(entries, e) && e.outcome.ean in order[..k]
    {
      var ean := order[k];
      var group := groups[ean];
      RivalsCount(entries, ean);
      RivalsAreTheClaims(entries, ean);
      assert forall x :: x in order[..k + 1] <==> x in order[..k] || x == ean;
      assert ean !in order[..k];
      if |group| >= 2 {
        var more: set<Entry>;
        ghost var done := conflicting;
        conflicts, more := AppendGroupConflicts(entries, conflicts, done, ean, group);
        conflicting := conflicting + more;
      }
    }
    assert order[..|order|] == order;
  }

  /** The entries before position `k` that stay as they are. */
  ghost function Others(entries: seq<Entry>, k: nat, conflicting: set<Entry>): set<Entry>
    requires k <= |entries|
  {
    set e | e in entries[..k] && e !in conflicting
  }

  lemma OthersStep(entries: seq<Entry>, k: nat, conflicting: set<Entry>)
    requires Ordered(entries) && k < |entries|
    ensures entries[k] !in Others(entries, k, conflicting)
    ensures Others(entries, k + 1, conflicting)
            == if entries[k] in conflicting then Others(entries, k, conflicting)
               else Others(entries, k, conflicting) + {entries[k]}
  {
    assert entries[..k + 1] == entries[..k] + [entries[k]];
  }

  method KeepOthers(entries: seq<Entry>, conflicts: seq<Entry>, conflicting: set<Entry>) returns (list: seq<Entry>)
    requires Ordered(entries) && Holds(entries, conflicts, conflicting)
    requires forall e | e in entries :: e in conflicting <==> IsConflicting(entries, e)
    ensures Holds(entries, list, SetOf(entries))
  {
    var kept: seq<Entry> := [];
    for k := 0 to |entries|
      invariant Holds(entries, kept, Others(entries, k, conflicting))
    {
      OthersStep(entries, k, conflicting);
      if entries[k] !in conflicting {
        HoldsMore(entries, kept, Others(entries, k, conflicting), entries[k], entries[k]);
        kept := kept + [entries[k]];
      }
    }
    list := kept + conflicts;
    HoldsBoth(entries, kept, conflicts, conflicting);
  }

  lemma HoldsBoth(entries: seq<Entry>, kept: seq<Entry>, conflicts: seq<Entry>, conflicting: set<Entry>)
    requires Ordered(entries) && Holds(entries, conflicts, conflicting)
    requires Holds(entries, kept, Others(entries, |entries|, conflicting))
    ensures Holds(entries, kept + conflicts, SetOf(entries))
  {
    var all, others := SetOf(entries), Others(entries, |entries|, conflicting);
    assert entries[..|entries|] == entries;
    forall i, j | 0 <= i < |kept| && 0 <= j < |conflicts| ensures kept[i].index != conflicts[j].index {
      assert IsSettledOf(entries, others, kept[i]) && IsSettledOf(entries, conflicting, conflicts[j]);
      var e :| e in entries && e in others && kept[i] == Settle(entries, e);
      var f :| f in entries && f in conflicting && conflicts[j] == Settle(entries, f);
      if e.index == f.index { SameIndexSameEntry(entries, e, f); }
    }
    forall x | x in kept + conflicts ensures IsSettledOf(entries, all, x) {
      if x in kept {
        SettledMore(entries, others, all, x);
      } else {
        assert IsSettledOf(entries, conflicting, x);
        var e :| e in entries && e in conflicting && x == Settle(entries, e);
        assert e in all;
      }
    }
  }

  // ----- The sort

  function Insert(sorted: seq<Entry>, e: Entry): seq<Entry> {
    if sorted == [] || sorted[|sorted| - 1].index <= e.index then sorted + [e]
    else Insert(sorted[..|sorted| - 1], e) + [sorted[|sorted| - 1]]
  }

  lemma {:induction false} InsertSorts(sorted: seq<Entry>, e: Entry)
    requires Ordered(sorted) && (forall i | 0 <= i < |sorted| :: sorted[i].index != e.index)
    ensures Ordered(Insert(sorted, e))
    ensures forall x :: x in Insert(sorted, e) <==> x in sorted || x == e
  {
    if sorted != [] && sorted[|sorted| - 1].index > e.index {
      var init, last := sorted[..|sorted| - 1], sorted[|sorted| - 1];
      InsertSorts(init, e);
      assert sorted == init + [last];
      forall i | 0 <= i < |Insert(init, e)| ensures Insert(init, e)[i].index < last.index {
        assert Insert(init, e)[i] in Insert(init, e);
      }
    }
  }

  method SortByIndex(list: seq<Entry>) returns (sorted: seq<Entry>)
    requires DistinctIndices(list)
    ensures Ordered(sorted) && forall e :: e in sorted <==> e in list
  {
    sorted := [];
    for k := 0 to |list|
      invariant Ordered(sorted) && forall e :: e in sorted <==> e in list[..k]
    {
      forall i | 0 <= i < |sorted| ensures sorted[i].index != list[k].index {
        assert sorted[i] in sorted;
      }
      InsertSorts(sorted, list[k]);
      sorted := Insert(sorted, list[k]);
      assert list[..k + 1] == list[..k] + [list[k]];
    }
    assert list[..|list|] == list;
  }

  lemma LastIsGreatest(a: seq<Entry>, e: Entry)
    requires Ordered(a) && e in a
    ensures e.index <= a[|a| - 1].index
    ensures e.index == a[|a| - 1].index ==> e == a[|a| - 1]
  {
    var i :| 0 <= i < |a| && a[i] == e;
  }

  lemma MembersWithoutLast(a: seq<Entry>, e: Entry)
    requires Ordered(a) && a != []
    ensures e in a[..|a| - 1] <==> e in a && e != a[|a| - 1]
  {
    assert a == a[..|a| - 1] + [a[|a| - 1]];
  }

  lemma EmptyTogether(a: seq<Entry>, b: seq<Entry>)
    requires forall e :: e in a <==> e in b
    ensures a == [] <==> b == []
  {
    if a != [] { assert a[0] in b; }
    if b != [] { assert b[0] in a; }
  }

  /** Two lists in index order with the same entries are one list. */
  lemma {:induction false} OrderedListsAreUnique(a: seq<Entry>, b: seq<Entry>)
    requires Ordered(a) && Ordered(b) && (forall e :: e in a <==> e in b)
    ensures a == b
  {
    EmptyTogether(a, b);
    if a != [] {
      var a', b', x, y := a[..|a| - 1], b[..|b| - 1], a[|a| - 1], b[|b| - 1];
      assert x in b && y in a;
      LastIsGreatest(a, y);
      LastIsGreatest(b, x);
      forall e ensures e in a' <==> e in b' {
        MembersWithoutLast(a, e);
        MembersWithoutLast(b, e);
      }
      OrderedListsAreUnique(a', b');
      assert a == a' + [x] && b == b' + [y];
    }
  }

  lemma SettledIsOrdered(entries: seq<Entry>, list: seq<Entry>)
    requires Ordered(entries) && Holds(entries, list, SetOf(entries))
    ensures Ordered(Settled(entries)) && forall e :: e in Settled(entries) <==> e in list
  {
    var settled := Settled(entries);
    forall e | e in settled ensures e in list {
      var k :| 0 <= k < |settled| && settled[k] == e;
      assert entries[k] in entries;
    }
    forall e | e in list ensures e in settled {
      assert IsSettledOf(entries, SetOf(entries), e);
      var f :| f in entries && e == Settle(entries, f);
      var k :| 0 <= k < |entries| && entries[k] == f;
      assert settled[k] == e;
    }
  }

  /** The whole of `canonicalCatalogOutcomes`. */
  method CanonicalCatalogOutcomes(cs: seq<Candidate>) returns (outcomes: seq<CatalogOutcome>)
    ensures outcomes == Resolve(cs)
  {
    var entries := CanonicalBySourceRecordId(cs);
    EntriesAreOrdered(cs);
    var conflicts, conflicting := EanConflicts(entries);
    var list := KeepOthers(entries, conflicts, conflicting);
    var sorted := SortByIndex(list);
    SettledIsOrdered(entries, list);
    OrderedListsAreUnique(sorted, Settled(entries));
    outcomes := seq(|sorted|, k requires 0 <= k < |sorted| => sorted[k].outcome);
  }
}
