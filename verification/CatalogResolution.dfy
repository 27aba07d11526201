/**
 Resolution of Kassalapp catalog candidates
 (apps/worker/src/kassalapp-handlers.ts: `canonicalCatalogOutcomes`, `mapCatalogOutcome`,
 `catalogConflictOutcome`, `dedupeOutcomesByIdentity`).

 Two outcomes have the same shape when they are equal values. A conflict's sorted
 list of record ids is kept as the set of those ids.
 */
module CatalogResolution {
  import opened Wrappers
  import Ledger = IngestionLedger

  datatype Origin = Discovery | Exact

  datatype Rejection = Quarantined | Unknown

  /** What the source answered; `detail` is the rest of the record or the reason. */
  datatype SourceOutcome =
    | AcceptedRecord(id: string, ean: string, detail: string)
    | RejectedRecord(id: string, rejection: Rejection, knownEan: Option<string>, detail: string)

  datatype Candidate = Candidate(origin: Origin, outcome: SourceOutcome, targetEan: string)

  datatype ConflictType = SourceRecordId | SubjectEan

  datatype CatalogOutcome =
    | Accepted(id: string, ean: string, detail: string)
    | Rejected(id: string, rejection: Rejection, knownEan: Option<string>, detail: string)
    | Conflict(id: string, conflict: ConflictType, candidateCount: nat, ids: set<string>, knownEan: Option<string>)

  // ----- GTINs

  predicate IsDigit(c: char) { '0' <= c <= '9' }

  function DigitValue(c: char): int { c as int - '0' as int }

  /** Odd positions from the right weigh three. */
  function WeightedSum(digits: string): int {
    if digits == "" then 0
    else DigitValue(digits[0]) * (if |digits| % 2 == 1 then 3 else 1) + WeightedSum(digits[1..])
  }

  /** Eight or thirteen digits whose last is the check digit of the others. */
  predicate IsValidGtin(s: string) {
    && (|s| == 8 || |s| == 13)
    && (forall c | c in s :: IsDigit(c))
    && (10 - WeightedSum(s[..|s| - 1]) % 10) % 10 == DigitValue(s[|s| - 1])
  }

  function SubjectEanOf(c: Candidate): Option<string> {
    var ean := match c.outcome
      case AcceptedRecord(_, ean, _) => ean
      case RejectedRecord(_, _, ean, _) => if ean.Some? then ean.value else c.targetEan;
    if IsValidGtin(ean) then Some(ean) else None
  }

  // ----- Grouping by source record id

  /** The distinct record ids in the order of their first candidate. */
  function Ids(cs: seq<Candidate>): seq<string> {
    if cs == [] then []
    else
      var before, id := Ids(cs[..|cs| - 1]), cs[|cs| - 1].outcome.id;
      if id in before then before else before + [id]
  }

  function First(cs: seq<Candidate>, id: string): (i: nat)
    requires id in Ids(cs)
    ensures i < |cs| && cs[i].outcome.id == id
    ensures forall j | 0 <= j < i :: cs[j].outcome.id != id
  {
    var init := cs[..|cs| - 1];
    IdsAreTheIds(init, id);
    if id in Ids(init) then First(init, id) else |cs| - 1
  }

  function Group(cs: seq<Candidate>, id: string): seq<Candidate> {
    if cs == [] then []
    else
      var before := Group(cs[..|cs| - 1], id);
      if cs[|cs| - 1].outcome.id == id then before + [cs[|cs| - 1]] else before
  }

  lemma {:induction false} IdsAreTheIds(cs: seq<Candidate>, id: string)
    ensures id in Ids(cs) <==> exists i :: 0 <= i < |cs| && cs[i].outcome.id == id
  {
    if cs != [] {
      var last := |cs| - 1;
      IdsAreTheIds(cs[..last], id);
      assert forall i | 0 <= i < last :: cs[..last][i] == cs[i];
      assert id == cs[last].outcome.id ==> id in Ids(cs);
    }
  }

  lemma {:induction false} IdsAreDistinct(cs: seq<Candidate>)
    ensures forall i, j | 0 <= i < j < |Ids(cs)| :: Ids(cs)[i] != Ids(cs)[j]
  {
    if cs != [] { IdsAreDistinct(cs[..|cs| - 1]); }
  }

  lemma {:induction false} FirstInPrefix(cs: seq<Candidate>, id: string)
    requires cs != [] && id in Ids(cs[..|cs| - 1])
    ensures id in Ids(cs) && First(cs, id) == First(cs[..|cs| - 1], id)
  {
  }

  lemma {:induction false} IdsInOrderOfFirst(cs: seq<Candidate>)
    ensures forall i, j | 0 <= i < j < |Ids(cs)| :: First(cs, Ids(cs)[i]) < First(cs, Ids(cs)[j])
  {
    if cs != [] {
      var init := cs[..|cs| - 1];
      IdsInOrderOfFirst(init);
      forall i, j | 0 <= i < j < |Ids(cs)| ensures First(cs, Ids(cs)[i]) < First(cs, Ids(cs)[j]) {
        assert Ids(cs)[i] == Ids(init)[i];
        FirstInPrefix(cs, Ids(init)[i]);
        if j < |Ids(init)| {
          assert Ids(cs)[j] == Ids(init)[j];
          FirstInPrefix(cs, Ids(init)[j]);
        }
      }
    }
  }

  lemma {:induction false} GroupMembers(cs: seq<Candidate>, id: string)
    ensures forall c :: c in Group(cs, id) <==> c in cs && c.outcome.id == id
    ensures Group(cs, id) != [] <==> id in Ids(cs)
  {
    if cs != [] {
      var init, last := cs[..|cs| - 1], cs[|cs| - 1];
      GroupMembers(init, id);
      assert cs == init + [last];
    }
  }

  // ----- One outcome per group

  predicate AllSame(group: seq<Candidate>) {
    forall c, d | c in group && d in group :: c.outcome == d.outcome
  }

  function KnownEans(group: seq<Candidate>): set<string> {
    set c | c in group && SubjectEanOf(c).Some? :: SubjectEanOf(c).value
  }

  /** Every discovery candidate is accepted, with one shape, and the group knows one GTIN. */
  predicate DiscoveryWins(group: seq<Candidate>) {
    && (forall c, d | c in group && d in group && c.origin.Discovery? && d.origin.Discovery? :: c.outcome == d.outcome)
    && (forall c | c in group && c.origin.Discovery? :: c.outcome.AcceptedRecord?)
    && |KnownEans(group)| == 1
  }

  function FirstDiscovery(group: seq<Candidate>): (r: Option<SourceOutcome>)
    ensures r.Some? ==> exists c :: c in group && c.origin.Discovery? && c.outcome == r.value
    ensures r.None? ==> forall c | c in group :: !c.origin.Discovery?
  {
    if group == [] then None
    else if group[0].origin.Discovery? then assert group[0] in group; Some(group[0].outcome)
    else FirstDiscovery(group[1..])
  }

  function Select(group: seq<Candidate>): Option<SourceOutcome>
    requires group != []
  {
    if AllSame(group) then Some(group[0].outcome)
    else if DiscoveryWins(group) then FirstDiscovery(group)
    else None
  }

  function MapOutcome(o: SourceOutcome): CatalogOutcome {
    match o
    case AcceptedRecord(id, ean, detail) => Accepted(id, ean, detail)
    case RejectedRecord(id, rejection, ean, detail) => Rejected(id, rejection, ean, detail)
  }

  /** The one member of a set of one. */
  function Sole(s: set<string>): (r: string)
    requires |s| == 1
    ensures s == {r}
  {
    SoleExists(s);
    var x :| x in s && s == {x}; x
  }

  lemma SoleExists(s: set<string>)
    requires |s| == 1
    ensures exists x :: x in s && s == {x}
    ensures forall x, y | x in s && y in s :: x == y
  {
    var x :| x in s;
    assert |s - {x}| == 0;
    assert s == {x};
  }

  function Canonical(id: string, group: seq<Candidate>): CatalogOutcome
    requires group != []
  {
    var selected := Select(group);
    if selected.Some? then MapOutcome(selected.value)
    else
      var eans := KnownEans(group);
      Conflict(id, SourceRecordId, |group|, {id}, if |eans| == 1 then Some(Sole(eans)) else None)
  }

  // ----- At most one accepted outcome per GTIN

  datatype Entry = Entry(index: nat, outcome: CatalogOutcome)

  function EntryOf(cs: seq<Candidate>, id: string): Entry
    requires id in Ids(cs)
  {
    GroupMembers(cs, id);
    Entry(First(cs, id), Canonical(id, Group(cs, id)))
  }

  function Entries(cs: seq<Candidate>): seq<Entry> {
    seq(|Ids(cs)|, k requires 0 <= k < |Ids(cs)| => EntryOf(cs, Ids(cs)[k]))
  }

  predicate Claims(e: Entry, ean: string) { e.outcome.Accepted? && e.outcome.ean == ean }

  function RivalIds(entries: seq<Entry>, ean: string): set<string> {
    set e | e in entries && Claims(e, ean) :: e.outcome.id
  }

  function EanConflict(id: string, ean: string, ids: set<string>): CatalogOutcome {
    Conflict(id, SubjectEan, |ids|, ids, Some(ean))
  }

  function Settle(entries: seq<Entry>, e: Entry): Entry {
    if e.outcome.Accepted? && |RivalIds(entries, e.outcome.ean)| >= 2 then
      e.(outcome := EanConflict(e.outcome.id, e.outcome.ean, RivalIds(entries, e.outcome.ean)))
    else e
  }

  function Settled(entries: seq<Entry>): seq<Entry> {
    seq(|entries|, k requires 0 <= k < |entries| => Settle(entries, entries[k]))
  }

  /** The outcome of every record id, in the order of the ids' first candidates. */
  function Resolve(cs: seq<Candidate>): seq<CatalogOutcome> {
    var settled := Settled(Entries(cs));
    seq(|settled|, k requires 0 <= k < |settled| => settled[k].outcome)
  }

  // ----- What resolution guarantees

  lemma SelectFromGroup(group: seq<Candidate>)
    requires group != [] && Select(group).Some?
    ensures exists c :: c in group && c.outcome == Select(group).value
  {
    assert group[0] in group;
  }

  lemma CanonicalHasItsId(cs: seq<Candidate>, id: string)
    requires id in Ids(cs)
    ensures Group(cs, id) != [] && Canonical(id, Group(cs, id)).id == id
  {
    GroupMembers(cs, id);
    if Select(Group(cs, id)).Some? { SelectFromGroup(Group(cs, id)); }
  }

  /** One outcome per distinct record id, in first-occurrence order. */
  lemma OneOutcomePerRecordId(cs: seq<Candidate>)
    ensures |Resolve(cs)| == |Ids(cs)|
    ensures forall k | 0 <= k < |Ids(cs)| :: Resolve(cs)[k].id == Ids(cs)[k]
    ensures forall i, j | 0 <= i < j < |Ids(cs)| :: Ids(cs)[i] != Ids(cs)[j]
    ensures forall i, j | 0 <= i < j < |Ids(cs)| :: First(cs, Ids(cs)[i]) < First(cs, Ids(cs)[j])
    ensures forall c | c in cs :: c.outcome.id in Ids(cs)
  {
    IdsAreDistinct(cs);
    IdsInOrderOfFirst(cs);
    forall k | 0 <= k < |Ids(cs)| ensures Resolve(cs)[k].id == Ids(cs)[k] {
      CanonicalHasItsId(cs, Ids(cs)[k]);
    }
    forall c | c in cs ensures c.outcome.id in Ids(cs) {
      var i :| 0 <= i < |cs| && cs[i] == c;
      IdsAreTheIds(cs, c.outcome.id);
    }
  }

  lemma TwoOfASet(s: set<string>, x: string, y: string)
    requires x in s && y in s && x != y
    ensures |s| >= 2
  {
    assert |s - {x} - {y}| >= 0 && |s - {x}| == |s| - 1 && y in s - {x};
  }

  /** No GTIN is accepted twice. */
  lemma AtMostOneAcceptedPerGtin(cs: seq<Candidate>, i: nat, j: nat)
    requires i < j < |Resolve(cs)| && Resolve(cs)[i].Accepted? && Resolve(cs)[j].Accepted?
    ensures Resolve(cs)[i].ean != Resolve(cs)[j].ean
  {
    OneOutcomePerRecordId(cs);
    var entries := Entries(cs);
    if Resolve(cs)[i].ean == Resolve(cs)[j].ean {
      assert entries[i] in entries && entries[j] in entries;
      CanonicalHasItsId(cs, Ids(cs)[i]);
      CanonicalHasItsId(cs, Ids(cs)[j]);
      TwoOfASet(RivalIds(entries, Resolve(cs)[i].ean), Ids(cs)[i], Ids(cs)[j]);
    }
  }

  /**
   An accepted outcome is one of the accepted candidates of its id; every discovery
   candidate of that id says exactly the same, and so does every other candidate
   unless the id's candidates know just one GTIN.
   */
  lemma AcceptedOutcomesAreUnambiguous(cs: seq<Candidate>, k: nat)
    requires k < |Resolve(cs)| && Resolve(cs)[k].Accepted?
    ensures var r := Resolve(cs)[k];
            var record := AcceptedRecord(r.id, r.ean, r.detail);
            && r.id == Ids(cs)[k]
            && (exists c :: c in cs && c.outcome == record)
            && (forall c | c in cs && c.outcome.id == r.id && c.origin.Discovery? :: c.outcome == record)
            && ((forall c | c in cs && c.outcome.id == r.id :: c.outcome == record)
                || |KnownEans(Group(cs, r.id))| == 1)
  {
    var id := Ids(cs)[k];
    GroupMembers(cs, id);
    SelectFromGroup(Group(cs, id));
    CanonicalHasItsId(cs, id);
  }

  /** A rejected outcome is what every candidate of its id says. */
  lemma RejectedOutcomesAreUnanimous(cs: seq<Candidate>, k: nat)
    requires k < |Resolve(cs)| && Resolve(cs)[k].Rejected?
    ensures var r := Resolve(cs)[k];
            && r.id == Ids(cs)[k]
            && forall c | c in cs && c.outcome.id == r.id ::
                 c.outcome == RejectedRecord(r.id, r.rejection, r.knownEan, r.detail)
  {
    var id := Ids(cs)[k];
    GroupMembers(cs, id);
    SelectFromGroup(Group(cs, id));
    CanonicalHasItsId(cs, id);
  }

  /** Outcomes that lose to each other over a GTIN name each other: the same ids, their number and the GTIN. */
  lemma RivalsNameEachOther(cs: seq<Candidate>, k: nat, id: string) returns (l: nat)
    requires k < |Resolve(cs)| && Resolve(cs)[k].Conflict? && Resolve(cs)[k].conflict.SubjectEan?
    requires id in Resolve(cs)[k].ids
    ensures l < |Resolve(cs)| && Ids(cs)[l] == id
    ensures Resolve(cs)[l] == Resolve(cs)[k].(id := id)
    ensures Resolve(cs)[k].candidateCount == |Resolve(cs)[k].ids| >= 2
  {
    var entries := Entries(cs);
    var ean := entries[k].outcome.ean;
    var e :| e in entries && Claims(e, ean) && e.outcome.id == id;
    l :| 0 <= l < |entries| && entries[l] == e;
    CanonicalHasItsId(cs, Ids(cs)[l]);
  }

  // ----- Independence of the order of candidates

  ghost predicate Permutation(a: seq<Candidate>, b: seq<Candidate>) {
    multiset(a) == multiset(b)
  }

  lemma {:induction false} GroupCount(cs: seq<Candidate>, id: string, c: Candidate)
    ensures multiset(Group(cs, id))[c] == if c.outcome.id == id then multiset(cs)[c] else 0
  {
    if cs != [] {
      var init, last := cs[..|cs| - 1], cs[|cs| - 1];
      GroupCount(init, id, c);
      assert cs == init + [last];
    }
  }

  lemma GroupsPermute(a: seq<Candidate>, b: seq<Candidate>, id: string)
    requires Permutation(a, b)
    ensures Permutation(Group(a, id), Group(b, id)) && |Group(a, id)| == |Group(b, id)|
    ensures forall c :: c in Group(a, id) <==> c in Group(b, id)
    ensures id in Ids(a) <==> id in Ids(b)
  {
    forall c ensures multiset(Group(a, id))[c] == multiset(Group(b, id))[c] {
      GroupCount(a, id, c);
      GroupCount(b, id, c);
    }
    assert multiset(Group(a, id)) == multiset(Group(b, id));
    assert |multiset(Group(a, id))| == |Group(a, id)|;
    forall c ensures c in Group(a, id) <==> c in Group(b, id) {
      assert c in Group(a, id) <==> c in multiset(Group(a, id));
      assert c in Group(b, id) <==> c in multiset(Group(b, id));
    }
    GroupMembers(a, id);
    GroupMembers(b, id);
    assert Group(a, id) != [] <==> Group(b, id) != [];
  }

  lemma CanonicalIgnoresOrder(id: string, g: seq<Candidate>, h: seq<Candidate>)
    requires g != [] && h != [] && |g| == |h| && (forall c :: c in g <==> c in h)
    ensures Canonical(id, g) == Canonical(id, h)
  {
    assert KnownEans(g) == KnownEans(h);
    assert AllSame(g) <==> AllSame(h);
    assert DiscoveryWins(g) <==> DiscoveryWins(h);
    assert g[0] in g && h[0] in h;
  }

  lemma EntriesIgnoreOrder(a: seq<Candidate>, b: seq<Candidate>, id: string)
    requires Permutation(a, b) && id in Ids(a)
    ensures id in Ids(b) && EntryOf(a, id).outcome == EntryOf(b, id).outcome
  {
    GroupsPermute(a, b, id);
    GroupMembers(a, id);
    GroupMembers(b, id);
    CanonicalIgnoresOrder(id, Group(a, id), Group(b, id));
  }

  lemma RivalsInBoth(a: seq<Candidate>, b: seq<Candidate>, ean: string, id: string)
    requires Permutation(a, b) && id in RivalIds(Entries(a), ean)
    ensures id in RivalIds(Entries(b), ean)
  {
    var e :| e in Entries(a) && Claims(e, ean) && e.outcome.id == id;
    var k :| 0 <= k < |Entries(a)| && Entries(a)[k] == e;
    CanonicalHasItsId(a, Ids(a)[k]);
    EntriesIgnoreOrder(a, b, id);
    var l :| 0 <= l < |Ids(b)| && Ids(b)[l] == id;
    assert Entries(b)[l] in Entries(b) && Claims(Entries(b)[l], ean);
  }

  lemma RivalsIgnoreOrder(a: seq<Candidate>, b: seq<Candidate>, ean: string)
    requires Permutation(a, b)
    ensures RivalIds(Entries(a), ean) == RivalIds(Entries(b), ean)
  {
    forall id ensures id in RivalIds(Entries(a), ean) <==> id in RivalIds(Entries(b), ean) {
      if id in RivalIds(Entries(a), ean) { RivalsInBoth(a, b, ean, id); }
      if id in RivalIds(Entries(b), ean) { RivalsInBoth(b, a, ean, id); }
    }
  }

  /** Reordering the candidates reorders the outcomes and changes none of them. */
  lemma ResolutionIgnoresOrder(a: seq<Candidate>, b: seq<Candidate>, i: nat) returns (j: nat)
    requires Permutation(a, b) && i < |Resolve(a)|
    ensures j < |Resolve(b)| && Resolve(b)[j] == Resolve(a)[i]
  {
    var id := Ids(a)[i];
    EntriesIgnoreOrder(a, b, id);
    j :| 0 <= j < |Ids(b)| && Ids(b)[j] == id;
    var e := Entries(a)[i];
    if e.outcome.Accepted? { RivalsIgnoreOrder(a, b, e.outcome.ean); }
  }

  // ----- The ledger never rejects a resolved or deduplicated batch

  ghost predicate DistinctIdentities(outcomes: seq<Ledger.Outcome>) {
    forall i, j | 0 <= i < j < |outcomes| ::
      !(outcomes[i].kind == outcomes[j].kind && outcomes[i].recordId == outcomes[j].recordId)
  }

  /** Whatever hashes and states they end up with, distinct identities go into a fresh run without conflict. */
  lemma DistinctIdentitiesAreAudited(ledger: seq<Ledger.Row>, run: nat, outcomes: seq<Ledger.Outcome>)
    requires Ledger.UniqueKeys(ledger) && (forall r | 0 <= r < |ledger| :: ledger[r].run != run)
    requires DistinctIdentities(outcomes) && (forall i | 0 <= i < |outcomes| :: outcomes[i].valid)
    ensures Ledger.Append(ledger, run, outcomes).Some?
  {
    Ledger.AppendSucceedsIffCompatible(ledger, run, outcomes);
  }

  /** A resolved catalog always passes the audit of its run. */
  lemma ResolvedCatalogIsAudited(cs: seq<Candidate>, ledger: seq<Ledger.Row>, run: nat, outcomes: seq<Ledger.Outcome>)
    requires Ledger.UniqueKeys(ledger) && (forall r | 0 <= r < |ledger| :: ledger[r].run != run)
    requires |outcomes| == |Resolve(cs)|
    requires forall i | 0 <= i < |outcomes| :: outcomes[i].valid && outcomes[i].recordId == Resolve(cs)[i].id
    ensures Ledger.Append(ledger, run, outcomes).Some?
  {
    OneOutcomePerRecordId(cs);
    DistinctIdentitiesAreAudited(ledger, run, outcomes);
  }

  /** Position `i` is the first sighting of its identity. */
  ghost predicate IsFirstSighting(outcomes: seq<Ledger.Outcome>, i: int) {
    && 0 <= i < |outcomes|
    && forall j | 0 <= j < i :: outcomes[j].kind != outcomes[i].kind || outcomes[j].recordId != outcomes[i].recordId
  }

  /** The walk over store pages keeps the first sighting of each identity, so its run passes the audit. */
  method DedupeOutcomesByIdentity(outcomes: seq<Ledger.Outcome>) returns (kept: seq<Ledger.Outcome>, ghost at: seq<int>)
    ensures |at| == |kept|
            && (forall k | 0 <= k < |kept| :: IsFirstSighting(outcomes, at[k]) && kept[k] == outcomes[at[k]])
    ensures forall k, l | 0 <= k < l < |at| :: at[k] < at[l]
    ensures forall i | IsFirstSighting(outcomes, i) :: i in at
    ensures DistinctIdentities(kept)
  {
    var seen: set<(string, string)> := {};
    kept, at := [], [];
    for i := 0 to |outcomes|
      invariant |at| == |kept|
                && (forall k | 0 <= k < |kept| ::
                      IsFirstSighting(outcomes, at[k]) && at[k] < i && kept[k] == outcomes[at[k]])
      invariant forall k, l | 0 <= k < l < |at| :: at[k] < at[l]
      invariant forall j | IsFirstSighting(outcomes, j) && j < i :: j in at
      invariant forall j | 0 <= j < i :: (outcomes[j].kind, outcomes[j].recordId) in seen
      invariant forall p | p in seen :: exists j :: 0 <= j < i && p == (outcomes[j].kind, outcomes[j].recordId)
    {
      var identity := (outcomes[i].kind, outcomes[i].recordId);
      if identity !in seen {
        seen := seen + {identity};
        assert IsFirstSighting(outcomes, i);
        kept, at := kept + [outcomes[i]], at + [i];
      } else {
        assert !IsFirstSighting(outcomes, i);
      }
    }
  }
}
