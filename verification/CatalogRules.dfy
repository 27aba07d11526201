/**
 The rules of catalog resolution, stated on the candidates alone
 (apps/worker/src/kassalapp-handlers.ts, `canonicalCatalogOutcomes`), and the proof that
 `CatalogResolution.Resolve` follows them for every list of candidates.
 */
module CatalogRules {
  import opened Wrappers
  import opened CatalogResolution

  // ----- GTINs

  ghost function Weight(s: string, i: nat): int { if (|s| - 1 - i) % 2 == 1 then 3 else 1 }

  /** The sum of the digits, every second one from the right taken three times, the check digit included. */
  ghost function CheckSum(s: string, upTo: nat): int
    requires upTo <= |s|
  {
    if upTo == 0 then 0 else CheckSum(s, upTo - 1) + (s[upTo - 1] as int - '0' as int) * Weight(s, upTo - 1)
  }

  /** Eight or thirteen digits whose weighted sum is a multiple of ten. */
  ghost predicate IsGtin(s: string) {
    && (|s| == 8 || |s| == 13)
    && (forall i | 0 <= i < |s| :: '0' <= s[i] <= '9')
    && CheckSum(s, |s|) % 10 == 0
  }

  lemma {:induction false} SumOfTheRest(s: string, i: nat)
    requires i < |s|
    ensures CheckSum(s, |s| - 1) == CheckSum(s, i) + WeightedSum(s[i..|s| - 1])
    decreases |s| - i
  {
    var rest := s[i..|s| - 1];
    if rest != "" {
      SumOfTheRest(s, i + 1);
      assert rest[0] == s[i] && rest[1..] == s[i + 1..|s| - 1];
    }
  }

  lemma ValidGtinsAre(s: string)
    ensures IsValidGtin(s) <==> IsGtin(s)
  {
    if |s| > 0 {
      SumOfTheRest(s, 0);
      assert s[0..|s| - 1] == s[..|s| - 1];
      assert forall i | 0 <= i < |s| :: s[i] in s;
      assert CheckSum(s, |s|) == WeightedSum(s[..|s| - 1]) + DigitValue(s[|s| - 1]);
      if forall i | 0 <= i < |s| :: '0' <= s[i] <= '9' {
        CheckDigit(WeightedSum(s[..|s| - 1]), DigitValue(s[|s| - 1]));
      }
    }
  }

  lemma CheckDigit(sum: int, digit: int)
    requires 0 <= digit <= 9
    ensures (10 - sum % 10) % 10 == digit <==> (sum + digit) % 10 == 0
  {
  }

  // ----- What the candidates of one record id say

  ghost predicate IsOf(cs: seq<Candidate>, id: string, c: Candidate) { c in cs && c.outcome.id == id }

  /** The GTIN a candidate is about: its own, or the one asked for when it was rejected without one. */
  ghost predicate IsAbout(c: Candidate, ean: string) {
    && IsGtin(ean)
    && match c.outcome
       case AcceptedRecord(_, own, _) => ean == own
       case RejectedRecord(_, _, own, _) => ean == if own.Some? then own.value else c.targetEan
  }

  lemma SubjectIs(c: Candidate, ean: string)
    ensures SubjectEanOf(c) == Some(ean) <==> IsAbout(c, ean)
  {
    ValidGtinsAre(ean);
  }

  /** Exactly one GTIN is known of the record id. */
  ghost predicate Knows(cs: seq<Candidate>, id: string, ean: string) {
    && (exists c :: IsOf(cs, id, c) && IsAbout(c, ean))
    && (forall c, other | IsOf(cs, id, c) && IsAbout(c, other) :: other == ean)
  }

  /** Every candidate of the id says this. */
  ghost predicate Unanimous(cs: seq<Candidate>, id: string, o: SourceOutcome) {
    (exists c :: IsOf(cs, id, c)) && (forall c | IsOf(cs, id, c) :: c.outcome == o)
  }

  /** Every discovery candidate of the id accepts this, and the id is known with one GTIN. */
  ghost predicate Preferred(cs: seq<Candidate>, id: string, o: SourceOutcome) {
    && o.AcceptedRecord?
    && (exists c :: IsOf(cs, id, c) && c.origin.Discovery?)
    && (forall c | IsOf(cs, id, c) && c.origin.Discovery? :: c.outcome == o)
    && (exists ean :: Knows(cs, id, ean))
  }

  ghost predicate Chosen(cs: seq<Candidate>, id: string, o: SourceOutcome) {
    Unanimous(cs, id, o) || ((forall any :: !Unanimous(cs, id, any)) && Preferred(cs, id, o))
  }

  lemma KnownEansAre(cs: seq<Candidate>, id: string, ean: string)
    ensures ean in KnownEans(Group(cs, id)) <==> exists c :: IsOf(cs, id, c) && IsAbout(c, ean)
  {
    GroupMembers(cs, id);
    var group := Group(cs, id);
    if ean in KnownEans(group) {
      var c :| c in group && SubjectEanOf(c) == Some(ean);
      SubjectIs(c, ean);
      assert IsOf(cs, id, c);
    }
    if c :| IsOf(cs, id, c) && IsAbout(c, ean) {
      SubjectIs(c, ean);
      assert c in group && SubjectEanOf(c).Some?;
    }
  }

  lemma OneKnownEan(cs: seq<Candidate>, id: string, ean: string)
    ensures KnownEans(Group(cs, id)) == {ean} <==> Knows(cs, id, ean)
  {
    var eans := KnownEans(Group(cs, id));
    forall other ensures other in eans <==> exists c :: IsOf(cs, id, c) && IsAbout(c, other) {
      KnownEansAre(cs, id, other);
    }
    hide IsOf, IsAbout, KnownEans;
    if eans == {ean} {
      assert ean in eans;
      forall c, other | IsOf(cs, id, c) && IsAbout(c, other) ensures other == ean {
        assert other in eans;
      }
    }
    if Knows(cs, id, ean) {
      forall other | other in eans ensures other == ean { }
      assert ean in eans;
      assert eans == {ean};
    }
  }

  lemma OneOfThem(cs: seq<Candidate>, id: string)
    ensures |KnownEans(Group(cs, id))| == 1 <==> exists ean :: Knows(cs, id, ean)
  {
    var eans := KnownEans(Group(cs, id));
    if |eans| == 1 {
      OneKnownEan(cs, id, Sole(eans));
    }
    if ean :| Knows(cs, id, ean) {
      OneKnownEan(cs, id, ean);
    }
  }

  /** The group's selection is what the rules choose. */
  lemma SelectionIsChosen(cs: seq<Candidate>, id: string, o: SourceOutcome)
    requires Group(cs, id) != []
    ensures Select(Group(cs, id)) == Some(o) <==> Chosen(cs, id, o)
  {
    GroupMembers(cs, id);
    OneOfThem(cs, id);
    var group := Group(cs, id);
    assert forall c :: IsOf(cs, id, c) <==> c in group;
    assert IsOf(cs, id, group[0]);
    if AllSame(group) {
      assert Unanimous(cs, id, group[0].outcome);
    } else {
      forall any ensures !Unanimous(cs, id, any) {
        var c, d :| c in group && d in group && c.outcome != d.outcome;
        assert IsOf(cs, id, c) && IsOf(cs, id, d);
      }
    }
    hide IsOf, Knows, KnownEans;
  }

  // ----- The rules

  /** The ids whose choice claims the GTIN. */
  ghost predicate ClaimsGtin(cs: seq<Candidate>, id: string, ean: string) {
    exists detail :: Chosen(cs, id, AcceptedRecord(id, ean, detail))
  }

  ghost predicate IsUnrivalled(cs: seq<Candidate>, id: string, ean: string) {
    forall other | ClaimsGtin(cs, other, ean) :: other == id
  }

  /**
   The outcome of a record id: what is chosen for it, unless another id is chosen with the same GTIN; then a
   conflict over the GTIN that names all such ids; a conflict of the id itself when nothing can be chosen.
   */
  ghost predicate FollowsTheRules(cs: seq<Candidate>, id: string, r: CatalogOutcome) {
    match r
    case Accepted(i, ean, detail) =>
      i == id && Chosen(cs, id, AcceptedRecord(id, ean, detail)) && IsUnrivalled(cs, id, ean)
    case Rejected(i, rejection, ean, detail) => i == id && Chosen(cs, id, RejectedRecord(id, rejection, ean, detail))
    case Conflict(i, kind, count, ids, known) =>
      && i == id
      && match kind
         case SubjectEan =>
           && known.Some? && ClaimsGtin(cs, id, known.value) && !IsUnrivalled(cs, id, known.value)
           && count == |ids| && forall other :: other in ids <==> ClaimsGtin(cs, other, known.value)
         case SourceRecordId =>
           && (forall o :: !Chosen(cs, id, o)) && ids == {id} && count == |Group(cs, id)|
           && (known.Some? ==> Knows(cs, id, known.value)) && (known.None? ==> forall ean :: !Knows(cs, id, ean))
  }

  /** No two different outcomes follow the rules: they decide every outcome. */
  lemma RulesDecide(cs: seq<Candidate>, id: string, r: CatalogOutcome, r': CatalogOutcome)
    requires FollowsTheRules(cs, id, r) && FollowsTheRules(cs, id, r')
    ensures r == r'
  {
    ChoiceIsUnique(cs, id);
    if r.Conflict? && r'.Conflict? {
      if r.conflict.SubjectEan? && r'.conflict.SubjectEan? {
        var d :| Chosen(cs, id, AcceptedRecord(id, r.knownEan.value, d));
        var d' :| Chosen(cs, id, AcceptedRecord(id, r'.knownEan.value, d'));
        assert r.ids == r'.ids;
      }
    }
    hide Chosen, Knows;
  }

  lemma ChoiceIsUnique(cs: seq<Candidate>, id: string)
    ensures forall o, o' | Chosen(cs, id, o) && Chosen(cs, id, o') :: o == o'
    ensures forall ean, ean' | Knows(cs, id, ean) && Knows(cs, id, ean') :: ean == ean'
  {
    hide IsOf, IsAbout;
  }

  lemma ChosenIsSighted(cs: seq<Candidate>, id: string, o: SourceOutcome)
    requires Chosen(cs, id, o)
    ensures id in Ids(cs)
  {
    OneOutcomePerRecordId(cs);
    var c :| IsOf(cs, id, c);
  }

  lemma ClaimsAre(cs: seq<Candidate>, id: string, ean: string)
    ensures id in RivalIds(Entries(cs), ean) <==> ClaimsGtin(cs, id, ean)
  {
    hide Chosen, EntryOf, FollowsTheRules;
    var entries := Entries(cs);
    if id in RivalIds(entries, ean) {
      var e :| e in entries && Claims(e, ean) && e.outcome.id == id;
      var k :| 0 <= k < |entries| && entries[k] == e;
      var other := Ids(cs)[k];
      EntryFollows(cs, other);
      EntryHasItsId(cs, other);
      assert e.outcome == Accepted(id, ean, e.outcome.detail);
    }
    if detail :| Chosen(cs, id, AcceptedRecord(id, ean, detail)) {
      ChosenIsSighted(cs, id, AcceptedRecord(id, ean, detail));
      var k :| 0 <= k < |Ids(cs)| && Ids(cs)[k] == id;
      EntryFollows(cs, id);
      assert entries[k] in entries && entries[k] == EntryOf(cs, id);
      assert Claims(entries[k], ean);
    }
  }

  lemma EntryHasItsId(cs: seq<Candidate>, id: string)
    requires id in Ids(cs)
    ensures EntryOf(cs, id).outcome.id == id
  {
    CanonicalHasItsId(cs, id);
  }

  /** Before rivals are looked at: the entry of an id is its choice, or the conflict of the id itself. */
  lemma EntryFollows(cs: seq<Candidate>, id: string)
    requires id in Ids(cs)
    ensures var r := EntryOf(cs, id).outcome;
            && (forall ean, detail ::
                  r == Accepted(id, ean, detail) <==> Chosen(cs, id, AcceptedRecord(id, ean, detail)))
            && (forall x, ean, detail ::
                  r == Rejected(id, x, ean, detail) <==> Chosen(cs, id, RejectedRecord(id, x, ean, detail)))
            && (r.Conflict? ==> FollowsTheRules(cs, id, r) && r.conflict.SourceRecordId?)
            && (r.Conflict? <==> forall o :: !Chosen(cs, id, o))
  {
    GroupMembers(cs, id);
    CanonicalHasItsId(cs, id);
    var group := Group(cs, id);
    forall o ensures Select(group) == Some(o) <==> Chosen(cs, id, o) { SelectionIsChosen(cs, id, o); }
    OneOfThem(cs, id);
    if |KnownEans(group)| == 1 { OneKnownEan(cs, id, Sole(KnownEans(group))); }
    hide Chosen, Select, Knows, KnownEans;
  }

  /** Every outcome of the resolution follows the rules, and by `RulesDecide` is the only one that does. */
  lemma ResolutionFollowsTheRules(cs: seq<Candidate>, k: nat)
    requires k < |Resolve(cs)|
    ensures k < |Ids(cs)| && FollowsTheRules(cs, Ids(cs)[k], Resolve(cs)[k])
  {
    var id, entries := Ids(cs)[k], Entries(cs);
    var r := EntryOf(cs, id).outcome;
    assert Resolve(cs)[k] == Settle(entries, EntryOf(cs, id)).outcome;
    EntryFollows(cs, id);
    EntryHasItsId(cs, id);
    hide Chosen, EntryOf, Resolve, Settled, Entries, RivalIds, FollowsTheRules;
    if r.Accepted? {
      assert r == Accepted(id, r.ean, r.detail);
      AcceptedFollows(cs, id, r.ean, r.detail);
    } else if r.Rejected? {
      assert r == Rejected(id, r.rejection, r.knownEan, r.detail);
      RejectedFollows(cs, id, r);
    }
  }

  lemma RejectedFollows(cs: seq<Candidate>, id: string, r: CatalogOutcome)
    requires r.Rejected? && r.id == id && Chosen(cs, id, RejectedRecord(id, r.rejection, r.knownEan, r.detail))
    ensures FollowsTheRules(cs, id, r)
  {
  }

  lemma AcceptedFollows(cs: seq<Candidate>, id: string, ean: string, detail: string)
    requires Chosen(cs, id, AcceptedRecord(id, ean, detail))
    ensures var rivals := RivalIds(Entries(cs), ean);
            FollowsTheRules(cs, id, if |rivals| >= 2 then EanConflict(id, ean, rivals) else Accepted(id, ean, detail))
  {
    hide Chosen, RivalIds, Entries;
    var rivals := RivalIds(Entries(cs), ean);
    forall other ensures other in rivals <==> ClaimsGtin(cs, other, ean) { ClaimsAre(cs, other, ean); }
    assert ClaimsGtin(cs, id, ean);
    RivalsOrNot(cs, id, ean, rivals);
    hide ClaimsGtin, IsUnrivalled;
  }

  lemma RivalsOrNot(cs: seq<Candidate>, id: string, ean: string, rivals: set<string>)
    requires id in rivals && forall other :: other in rivals <==> ClaimsGtin(cs, other, ean)
    ensures |rivals| >= 2 <==> !IsUnrivalled(cs, id, ean)
  {
    hide ClaimsGtin;
    if IsUnrivalled(cs, id, ean) {
      assert rivals == {id};
    } else {
      var other :| ClaimsGtin(cs, other, ean) && other != id;
      TwoOfASet(rivals, id, other);
    }
  }
}
