/**
 The last-writer-wins row of a source product (packages/db/src/ingestion.ts:
 `sourceProductReplacementCondition` and the upsert of `linkSourceProduct`).

 Timestamps are integers. The digest is an integer too: only its total order matters.
 */
module SourceProductRows {
  /** One accepted record of a (source, external id): when it was retrieved, its digest and what it says. */
  datatype Sighting<T> = Sighting(seenAt: int, hash: int, payload: T)

  datatype Row<T> = Row(firstSeenAt: int, lastSeenAt: int, hash: int, payload: T)

  /** The condition under which a stored row gives way. */
  predicate Replaces<T>(row: Row<T>, s: Sighting<T>) {
    row.lastSeenAt < s.seenAt || (row.lastSeenAt == s.seenAt && row.hash > s.hash)
  }

  function Inserted<T>(s: Sighting<T>): Row<T> {
    Row(s.seenAt, s.seenAt, s.hash, s.payload)
  }

  function Updated<T>(row: Row<T>, s: Sighting<T>): Row<T> {
    if Replaces(row, s) then row.(lastSeenAt := s.seenAt, hash := s.hash, payload := s.payload) else row
  }

  /** The row after all arrivals, in order of arrival. */
  function Arrivals<T>(sightings: seq<Sighting<T>>): Row<T>
    requires sightings != []
    decreases |sightings|
  {
    var last := |sightings| - 1;
    if last == 0 then Inserted(sightings[0]) else Updated(Arrivals(sightings[..last]), sightings[last])
  }

  /** `s` is at least as good as `t`: later, or as late with a digest no greater. */
  predicate AtLeast<T>(s: Sighting<T>, t: Sighting<T>) {
    s.seenAt > t.seenAt || (s.seenAt == t.seenAt && s.hash <= t.hash)
  }

  ghost predicate Holds<T>(row: Row<T>, s: Sighting<T>) {
    row.lastSeenAt == s.seenAt && row.hash == s.hash && row.payload == s.payload
  }

  /** A sighting no better than what is shown changes nothing, and a better one is shown as a whole. */
  lemma OnlyBetterSightingsShow<T>(row: Row<T>, s: Sighting<T>)
    ensures var better := s.seenAt > row.lastSeenAt || (s.seenAt == row.lastSeenAt && s.hash < row.hash);
            Updated(row, s) == if better then Row(row.firstSeenAt, s.seenAt, s.hash, s.payload) else row
  {
  }

  /** Whatever the order, the row shows the best sighting, and it remembers when the first one arrived. */
  lemma {:induction false} ShowsTheBest<T>(sightings: seq<Sighting<T>>) returns (best: nat)
    requires sightings != []
    ensures best < |sightings| && Holds(Arrivals(sightings), sightings[best])
    ensures forall i | 0 <= i < |sightings| :: AtLeast(sightings[best], sightings[i])
    ensures Arrivals(sightings).firstSeenAt == sightings[0].seenAt <= Arrivals(sightings).lastSeenAt
    decreases |sightings|
  {
    var last := |sightings| - 1;
    if last == 0 {
      best := 0;
    } else {
      var before := sightings[..last];
      var b := ShowsTheBest(before);
      assert forall i | 0 <= i < last :: before[i] == sightings[i];
      best := if Replaces(Arrivals(before), sightings[last]) then last else b;
    }
  }

  /** A digest identifies what was digested. */
  ghost predicate DigestsIdentify<T(!new)>(sightings: seq<Sighting<T>>) {
    forall i, j | 0 <= i < |sightings| && 0 <= j < |sightings| && sightings[i].hash == sightings[j].hash ::
      sightings[i].payload == sightings[j].payload
  }

  ghost predicate SameSightings<T(!new)>(a: seq<Sighting<T>>, b: seq<Sighting<T>>) {
    forall s :: s in a <==> s in b
  }

  /**
   Convergence: two histories with the same sightings end in the same shown record,
   whatever their order and however often each sighting is repeated.
   */
  lemma Converges<T(!new)>(a: seq<Sighting<T>>, b: seq<Sighting<T>>)
    requires a != [] && b != [] && SameSightings(a, b) && DigestsIdentify(a)
    ensures Arrivals(a).lastSeenAt == Arrivals(b).lastSeenAt
    ensures Arrivals(a).hash == Arrivals(b).hash
    ensures Arrivals(a).payload == Arrivals(b).payload
  {
    var i := ShowsTheBest(a);
    var j := ShowsTheBest(b);
    assert a[i] in b && b[j] in a;
    var i' :| 0 <= i' < |b| && b[i'] == a[i];
    var j' :| 0 <= j' < |a| && a[j'] == b[j];
    assert AtLeast(b[j], b[i']) && AtLeast(a[i], a[j']);
  }

  /**
   `firstSeenAt` is not part of the convergence: it stays at the first arrival even
   when an older record arrives later. It is the earliest sighting exactly when the
   first arrival is.
   */
  lemma FirstSeenIsEarliestIff<T(!new)>(sightings: seq<Sighting<T>>)
    requires sightings != []
    ensures (forall i | 0 <= i < |sightings| :: Arrivals(sightings).firstSeenAt <= sightings[i].seenAt)
            <==> (forall i | 0 <= i < |sightings| :: sightings[0].seenAt <= sightings[i].seenAt)
  {
    var best := ShowsTheBest(sightings);
  }

  lemma FirstSeenDependsOnOrder()
    ensures var newer, older := Sighting(2, 0, ""), Sighting(1, 0, "");
            Arrivals([newer, older]).firstSeenAt == 2 && Arrivals([older, newer]).firstSeenAt == 1
  {
    var newer, older := Sighting(2, 0, ""), Sighting(1, 0, "");
    assert [newer, older][..1] == [newer] && [older, newer][..1] == [older];
  }
}
