/**
 The price cache (packages/db/src/price-cache.ts) and its second writer
 (packages/db/src/ingestion.ts, `persistPriceOutcomes`).

 Observation times are integers: the domain schema admits one text form of fixed
 precision in UTC, so its text order, which the batch dedupe uses, is the order of time.
 */
module PriceCache {
  datatype Key = Key(ean: string, chain: string)

  datatype Observation = Observation(key: Key, amountOre: nat, observedAt: int)

  type Cache = map<Key, Observation>

  // ----- The boundary filter and the batch dedupe

  function Cacheable(rows: seq<Observation>, now: int): seq<Observation> {
    if rows == [] then []
    else
      var rest := Cacheable(rows[..|rows| - 1], now);
      if rows[|rows| - 1].observedAt <= now then rest + [rows[|rows| - 1]] else rest
  }

  lemma {:induction false} CacheableIsTheFilter(rows: seq<Observation>, now: int, row: Observation)
    ensures row in Cacheable(rows, now) <==> row in rows && row.observedAt <= now
  {
    if rows != [] {
      var init := rows[..|rows| - 1];
      CacheableIsTheFilter(init, now, row);
      assert rows == init + [rows[|rows| - 1]];
    }
  }

  method FilterCacheablePriceObservations(rows: seq<Observation>, now: int) returns (kept: seq<Observation>)
    ensures kept == Cacheable(rows, now)
  {
    kept := [];
    for i := 0 to |rows|
      invariant kept == Cacheable(rows[..i], now)
    {
      assert rows[..i + 1][..i] == rows[..i];
      if rows[i].observedAt <= now {
        kept := kept + [rows[i]];
      }
    }
    assert rows[..|rows|] == rows;
  }

  /** Index `j` holds the last of the newest rows of its key. */
  ghost predicate Wins(rows: seq<Observation>, j: int) {
    && 0 <= j < |rows|
    && (forall i | 0 <= i < |rows| && rows[i].key == rows[j].key ::
          rows[i].observedAt < rows[j].observedAt || (rows[i].observedAt == rows[j].observedAt && i <= j))
  }

  ghost predicate DistinctKeys(rows: seq<Observation>) {
    forall i, j | 0 <= i < j < |rows| :: rows[i].key != rows[j].key
  }

  /** `kept` has one row per key of `rows`: the last of that key's newest. */
  ghost predicate IsDedupe(rows: seq<Observation>, kept: seq<Observation>) {
    && DistinctKeys(kept)
    && (forall k | 0 <= k < |kept| :: IsWinner(rows, kept[k]))
    && (forall i | 0 <= i < |rows| :: HasKey(kept, rows[i].key))
  }

  ghost predicate IsWinner(rows: seq<Observation>, row: Observation) {
    exists j :: Wins(rows, j) && rows[j] == row
  }

  ghost predicate HasKey(rows: seq<Observation>, key: Key) {
    exists k :: 0 <= k < |rows| && rows[k].key == key
  }

  lemma WinsAfter(rows: seq<Observation>, row: Observation, winner: Observation)
    requires IsWinner(rows, winner)
    requires winner.key != row.key || row.observedAt < winner.observedAt
    ensures IsWinner(rows + [row], winner)
  {
    var j :| Wins(rows, j) && rows[j] == winner;
    assert Wins(rows + [row], j) && (rows + [row])[j] == winner;
  }

  lemma NewestWins(rows: seq<Observation>, row: Observation)
    requires forall i | 0 <= i < |rows| && rows[i].key == row.key :: rows[i].observedAt <= row.observedAt
    ensures IsWinner(rows + [row], row)
  {
    assert Wins(rows + [row], |rows|) && (rows + [row])[|rows|] == row;
  }

  /** No row of a key is newer than the key's winner. */
  lemma WinnerIsNewest(rows: seq<Observation>, winner: Observation, i: nat)
    requires IsWinner(rows, winner) && i < |rows| && rows[i].key == winner.key
    ensures rows[i].observedAt <= winner.observedAt
  {
    var j :| Wins(rows, j) && rows[j] == winner;
  }

  /**
   A map kept in insertion order: setting a key that is present keeps its place.
   This is how the batch's rows are collected.
   */
  function Slot(kept: seq<Observation>, key: Key): (r: nat)
    ensures r <= |kept|
    ensures r < |kept| ==> kept[r].key == key
    ensures forall k | 0 <= k < r :: kept[k].key != key
  {
    if kept == [] || kept[0].key == key then 0 else 1 + Slot(kept[1..], key)
  }

  function Keep(kept: seq<Observation>, row: Observation): seq<Observation> {
    var slot := Slot(kept, row.key);
    if slot == |kept| then kept + [row]
    else if row.observedAt >= kept[slot].observedAt then kept[slot := row]
    else kept
  }

  lemma DedupeStep(rows: seq<Observation>, kept: seq<Observation>, row: Observation)
    requires IsDedupe(rows, kept)
    ensures IsDedupe(rows + [row], Keep(kept, row))
  {
    var grown, kept', slot := rows + [row], Keep(kept, row), Slot(kept, row.key);
    forall k | 0 <= k < |kept'| ensures IsWinner(grown, kept'[k]) {
      if k == slot && kept'[k] == row {
        NewRowWins(rows, kept, row);
      } else {
        assert IsWinner(rows, kept[k]);
        WinsAfter(rows, row, kept[k]);
      }
    }
    forall i | 0 <= i < |grown| ensures HasKey(kept', grown[i].key) {
      KeysStay(kept, row, grown[i].key);
      assert i < |rows| ==> HasKey(kept, rows[i].key);
    }
  }

  lemma KeysStay(kept: seq<Observation>, row: Observation, key: Key)
    ensures HasKey(Keep(kept, row), row.key)
    ensures HasKey(kept, key) ==> HasKey(Keep(kept, row), key)
  {
    var slot, kept' := Slot(kept, row.key), Keep(kept, row);
    assert kept'[slot].key == row.key;
    if HasKey(kept, key) {
      var k :| 0 <= k < |kept| && kept[k].key == key;
      assert kept'[k].key == key;
    }
  }

  lemma NewRowWins(rows: seq<Observation>, kept: seq<Observation>, row: Observation)
    requires IsDedupe(rows, kept)
    requires var slot := Slot(kept, row.key); slot < |kept| ==> row.observedAt >= kept[slot].observedAt
    ensures IsWinner(rows + [row], row)
  {
    var slot := Slot(kept, row.key);
    forall i | 0 <= i < |rows| && rows[i].key == row.key ensures rows[i].observedAt <= row.observedAt {
      assert HasKey(kept, rows[i].key);
      WinnerIsNewest(rows, kept[slot], i);
    }
    NewestWins(rows, row);
  }

  function Dedupe(rows: seq<Observation>): seq<Observation> {
    if rows == [] then [] else Keep(Dedupe(rows[..|rows| - 1]), rows[|rows| - 1])
  }

  lemma {:induction false} DedupeKeepsTheWinners(rows: seq<Observation>)
    ensures IsDedupe(rows, Dedupe(rows))
  {
    if rows != [] {
      var init, last := rows[..|rows| - 1], rows[|rows| - 1];
      DedupeKeepsTheWinners(init);
      DedupeStep(init, Dedupe(init), last);
      assert rows == init + [last];
    }
  }

  method DedupePriceObservations(rows: seq<Observation>) returns (kept: seq<Observation>)
    ensures kept == Dedupe(rows)
    ensures IsDedupe(rows, kept)
  {
    kept := [];
    for i := 0 to |rows|
      invariant kept == Dedupe(rows[..i])
    {
      assert rows[..i + 1][..i] == rows[..i];
      var slot := Slot(kept, rows[i].key);
      if slot == |kept| {
        kept := kept + [rows[i]];
      } else if rows[i].observedAt >= kept[slot].observedAt {
        kept := kept[slot := rows[i]];
      }
    }
    assert rows[..|rows|] == rows;
    DedupeKeepsTheWinners(rows);
  }

  // ----- Upserts

  /** The row is written if the key is new or the stored observation strictly older. */
  function Upsert(cache: Cache, row: Observation): Cache {
    if row.key !in cache || cache[row.key].observedAt < row.observedAt then cache[row.key := row] else cache
  }

  function UpsertAll(cache: Cache, rows: seq<Observation>): Cache {
    if rows == [] then cache else Upsert(UpsertAll(cache, rows[..|rows| - 1]), rows[|rows| - 1])
  }

  /** `entry` is what a key holds after rows were admitted: none if it never had one, else one of the newest. */
  ghost predicate IsNewestOf(entry: Observation, key: Key, start: Cache, rows: seq<Observation>) {
    && entry.key == key
    && (entry in rows || (key in start && entry == start[key]))
    && (key in start ==> start[key].observedAt <= entry.observedAt)
    && (forall row | row in rows && row.key == key :: row.observedAt <= entry.observedAt)
  }

  ghost predicate KeysMatch(cache: Cache) {
    forall key | key in cache :: cache[key].key == key
  }

  ghost predicate Tracks(cache: Cache, start: Cache, rows: seq<Observation>) {
    && (forall key :: key in cache <==> key in start || exists row :: row in rows && row.key == key)
    && (forall key | key in cache :: IsNewestOf(cache[key], key, start, rows))
  }

  lemma UpsertTracks(cache: Cache, start: Cache, rows: seq<Observation>, row: Observation)
    requires Tracks(cache, start, rows)
    ensures Tracks(Upsert(cache, row), start, rows + [row])
  {
    var cache', grown := Upsert(cache, row), rows + [row];
    assert forall r :: r in grown <==> r in rows || r == row;
    forall key ensures key in cache' <==> key in start || exists r :: r in grown && r.key == key {
      if key == row.key { assert row in grown; }
    }
    forall key | key in cache' ensures IsNewestOf(cache'[key], key, start, grown) {
      if key != row.key { assert cache'[key] == cache[key]; }
    }
  }

  // ----- Histories of both writers

  datatype Write =
    | PutMany(rows: seq<Observation>, now: int)
    | Ingest(row: Observation)

  function Admitted(w: Write): seq<Observation> {
    match w
    case PutMany(rows, now) => Cacheable(rows, now)
    case Ingest(row) => [row]
  }

  function AllAdmitted(writes: seq<Write>): seq<Observation> {
    if writes == [] then [] else AllAdmitted(writes[..|writes| - 1]) + Admitted(writes[|writes| - 1])
  }

  function Store(cache: Cache, w: Write): Cache {
    match w
    case PutMany(rows, now) => UpsertAll(cache, Dedupe(Cacheable(rows, now)))
    case Ingest(row) => Upsert(cache, row)
  }

  function History(cache: Cache, writes: seq<Write>): Cache {
    if writes == [] then cache else Store(History(cache, writes[..|writes| - 1]), writes[|writes| - 1])
  }

  class PriceCacheTable {
    var rows: Cache

    constructor ()
      ensures rows == map[]
    {
      rows := map[];
    }

    /** One statement: its rows have distinct keys, so no stored row is touched twice. */
    method InsertBatch(batch: seq<Observation>)
      requires DistinctKeys(batch)
      modifies this
      ensures rows == UpsertAll(old(rows), batch)
      ensures forall key | key in old(rows) && (forall k | 0 <= k < |batch| :: batch[k].key != key) ::
                key in rows && rows[key] == old(rows)[key]
    {
      for i := 0 to |batch|
        invariant rows == UpsertAll(old(rows), batch[..i])
        invariant forall key | key in old(rows) && (forall k | 0 <= k < i :: batch[k].key != key) ::
                    key in rows && rows[key] == old(rows)[key]
      {
        assert batch[..i + 1][..i] == batch[..i];
        rows := Upsert(rows, batch[i]);
      }
      assert batch[..|batch|] == batch;
    }

    method PutMany(observations: seq<Observation>, now: int)
      modifies this
      ensures rows == Store(old(rows), Write.PutMany(observations, now))
    {
      var cacheable := FilterCacheablePriceObservations(observations, now);
      var deduped := DedupePriceObservations(cacheable);
      if deduped != [] {
        InsertBatch(deduped);
      }
    }

    method IngestPrice(row: Observation)
      modifies this
      ensures rows == Store(old(rows), Ingest(row))
    {
      if row.key !in rows || rows[row.key].observedAt < row.observedAt {
        rows := rows[row.key := row];
      }
    }
  }

  lemma {:induction false} BatchTracks(cache: Cache, start: Cache, before: seq<Observation>, batch: seq<Observation>)
    requires Tracks(cache, start, before)
    ensures Tracks(UpsertAll(cache, batch), start, before + batch)
  {
    if batch == [] {
      assert before + batch == before;
    } else {
      var init, last := batch[..|batch| - 1], batch[|batch| - 1];
      BatchTracks(cache, start, before, init);
      UpsertTracks(UpsertAll(cache, init), start, before + init, last);
      assert before + init + [last] == before + batch;
    }
  }

  /** The rows a dedupe drops are no newer than the one it keeps, so admitting them all changes nothing. */
  lemma DroppedRowsDoNotMatter(cache: Cache, start: Cache, before: seq<Observation>, rows: seq<Observation>,
                               kept: seq<Observation>)
    requires IsDedupe(rows, kept) && Tracks(cache, start, before + kept)
    ensures Tracks(cache, start, before + rows)
  {
    forall key ensures key in cache <==> key in start || exists r :: r in before + rows && r.key == key {
      KeyIsKept(rows, kept, before, key);
    }
    forall key | key in cache ensures IsNewestOf(cache[key], key, start, before + rows) {
      var entry := cache[key];
      assert IsNewestOf(entry, key, start, before + kept);
      if entry in kept { KeptIsARow(rows, kept, entry); }
      forall r | r in before + rows && r.key == key ensures r.observedAt <= entry.observedAt {
        if r in before {
          assert r in before + kept;
        } else {
          var k := KeptIsNewest(rows, kept, r);
          assert kept[k] in before + kept;
        }
      }
    }
  }

  lemma KeptIsARow(rows: seq<Observation>, kept: seq<Observation>, entry: Observation)
    requires IsDedupe(rows, kept) && entry in kept
    ensures entry in rows
  {
    var k :| 0 <= k < |kept| && kept[k] == entry;
    assert IsWinner(rows, kept[k]);
  }

  lemma KeptIsNewest(rows: seq<Observation>, kept: seq<Observation>, r: Observation) returns (k: nat)
    requires IsDedupe(rows, kept) && r in rows
    ensures k < |kept| && kept[k].key == r.key && r.observedAt <= kept[k].observedAt
  {
    var i :| 0 <= i < |rows| && rows[i] == r;
    assert HasKey(kept, rows[i].key);
    k :| 0 <= k < |kept| && kept[k].key == rows[i].key;
    WinnerIsNewest(rows, kept[k], i);
  }

  lemma KeyIsKept(rows: seq<Observation>, kept: seq<Observation>, before: seq<Observation>, key: Key)
    requires IsDedupe(rows, kept)
    ensures (exists r :: r in before + rows && r.key == key) <==> (exists r :: r in before + kept && r.key == key)
  {
    if r :| r in before + rows && r.key == key {
      if r in before {
        assert r in before + kept;
      } else {
        var k := KeptIsNewest(rows, kept, r);
        assert kept[k] in before + kept;
      }
    }
    if r :| r in before + kept && r.key == key {
      if r in before {
        assert r in before + rows;
      } else {
        KeptIsARow(rows, kept, r);
        assert r in before + rows;
      }
    }
  }

  lemma StoreTracks(cache: Cache, start: Cache, before: seq<Observation>, w: Write)
    requires Tracks(cache, start, before)
    ensures Tracks(Store(cache, w), start, before + Admitted(w))
  {
    match w
    case PutMany(rows, now) =>
      var cacheable := Cacheable(rows, now);
      DedupeKeepsTheWinners(cacheable);
      BatchTracks(cache, start, before, Dedupe(cacheable));
      DroppedRowsDoNotMatter(Store(cache, w), start, before, cacheable, Dedupe(cacheable));
    case Ingest(row) =>
      UpsertTracks(cache, start, before, row);
  }

  /** After any history of both writers each key holds a newest of all rows ever admitted for it. */
  lemma {:induction false} HoldsTheNewest(start: Cache, writes: seq<Write>)
    requires KeysMatch(start)
    ensures Tracks(History(start, writes), start, AllAdmitted(writes))
  {
    if writes != [] {
      var init, last := writes[..|writes| - 1], writes[|writes| - 1];
      HoldsTheNewest(start, init);
      StoreTracks(History(start, init), start, AllAdmitted(init), last);
    }
  }

  // ----- What does and does not depend on the order of writes

  /** Histories that admitted the same rows agree on the time of every key, whatever their order and batching. */
  lemma TimesAreOrderIndependent(start: Cache, v: seq<Write>, w: seq<Write>, key: Key)
    requires KeysMatch(start) && SameRows(AllAdmitted(v), AllAdmitted(w))
    ensures key in History(start, v) <==> key in History(start, w)
    ensures key in History(start, v) ==> History(start, v)[key].observedAt == History(start, w)[key].observedAt
  {
    HoldsTheNewest(start, v);
    HoldsTheNewest(start, w);
    var a, b, rowsA, rowsB := History(start, v), History(start, w), AllAdmitted(v), AllAdmitted(w);
    if key in a && key in b {
      assert IsNewestOf(a[key], key, start, rowsA) && IsNewestOf(b[key], key, start, rowsB);
    }
  }

  /** `row` is a newest of its key. */
  ghost predicate IsNewest(row: Observation, rows: seq<Observation>) {
    row in rows && forall r | r in rows && r.key == row.key :: r.observedAt <= row.observedAt
  }

  ghost predicate NewestAgree(rows: seq<Observation>, key: Key) {
    forall p, q | IsNewest(p, rows) && IsNewest(q, rows) && p.key == q.key == key :: p.amountOre == q.amountOre
  }

  ghost predicate SameRows(a: seq<Observation>, b: seq<Observation>) {
    forall row :: row in a <==> row in b
  }

  /** Histories of both writers, in any order and batching, that admit just these rows leave the key with one amount. */
  ghost predicate AmountIsDetermined(start: Cache, rows: seq<Observation>, key: Key) {
    forall v, w | SameRows(AllAdmitted(v), rows) && SameRows(AllAdmitted(w), rows)
                  && key in History(start, v) && key in History(start, w) ::
      History(start, v)[key].amountOre == History(start, w)[key].amountOre
  }

  /** No row is strictly newer than what the cache starts with. */
  ghost predicate StartStands(start: Cache, rows: seq<Observation>, key: Key) {
    key in start && forall row | row in rows && row.key == key :: row.observedAt <= start[key].observedAt
  }

  lemma {:induction false} UpsertAllLeaves(cache: Cache, rows: seq<Observation>, key: Key)
    requires StartStands(cache, rows, key)
    ensures key in UpsertAll(cache, rows) && UpsertAll(cache, rows)[key] == cache[key]
  {
    if rows != [] {
      var init, last := rows[..|rows| - 1], rows[|rows| - 1];
      assert rows == init + [last] && last in rows;
      UpsertAllLeaves(cache, init, key);
    }
  }

  lemma StoreLeaves(cache: Cache, w: Write, key: Key)
    requires StartStands(cache, Admitted(w), key)
    ensures key in Store(cache, w) && Store(cache, w)[key] == cache[key]
  {
    match w
    case PutMany(rows, now) =>
      var cacheable := Cacheable(rows, now);
      DedupeKeepsTheWinners(cacheable);
      forall row | row in Dedupe(cacheable) && row.key == key ensures row.observedAt <= cache[key].observedAt {
        KeptIsARow(cacheable, Dedupe(cacheable), row);
      }
      UpsertAllLeaves(cache, Dedupe(cacheable), key);
    case Ingest(row) =>
      assert row in Admitted(w);
  }

  /** An observation stays unless a strictly newer one is admitted. */
  lemma {:induction false} HistoryLeaves(start: Cache, writes: seq<Write>, key: Key)
    requires StartStands(start, AllAdmitted(writes), key)
    ensures key in History(start, writes) && History(start, writes)[key] == start[key]
  {
    if writes != [] {
      var init, last := writes[..|writes| - 1], writes[|writes| - 1];
      HistoryLeaves(start, init, key);
      StoreLeaves(History(start, init), last, key);
    }
  }

  function IngestAll(rows: seq<Observation>): seq<Write> {
    seq(|rows|, i requires 0 <= i < |rows| => Ingest(rows[i]))
  }

  lemma {:induction false} IngestedOneByOne(start: Cache, rows: seq<Observation>)
    ensures AllAdmitted(IngestAll(rows)) == rows && History(start, IngestAll(rows)) == UpsertAll(start, rows)
  {
    if rows != [] {
      var init, writes := rows[..|rows| - 1], IngestAll(rows);
      assert writes[..|writes| - 1] == IngestAll(init);
      IngestedOneByOne(start, init);
      assert rows == init + [rows[|rows| - 1]];
    }
  }

  /** A row that is newest when it arrives, and newer than the start, stays. */
  lemma {:induction false} FirstOfTheNewestStays(start: Cache, first: Observation, rows: seq<Observation>)
    requires first.key in start ==> start[first.key].observedAt < first.observedAt
    requires forall r | r in rows && r.key == first.key :: r.observedAt <= first.observedAt
    ensures first.key in UpsertAll(start, [first] + rows) && UpsertAll(start, [first] + rows)[first.key] == first
  {
    if rows == [] {
      assert [first] + rows == [first] && [first][..0] == [];
    } else {
      var init := rows[..|rows| - 1];
      FirstOfTheNewestStays(start, first, init);
      assert ([first] + rows)[..|rows|] == [first] + init;
    }
  }

  /** A key whose start was beaten shows one of the newest rows. */
  lemma NewestIsShown(start: Cache, rows: seq<Observation>, v: seq<Write>, key: Key)
    requires KeysMatch(start) && SameRows(AllAdmitted(v), rows) && key in History(start, v)
             && !StartStands(start, rows, key)
    ensures IsNewest(History(start, v)[key], rows) && History(start, v)[key].key == key
  {
    HoldsTheNewest(start, v);
    assert IsNewestOf(History(start, v)[key], key, start, AllAdmitted(v));
  }

  lemma ShowsFirst(start: Cache, rows: seq<Observation>, p: Observation) returns (v: seq<Write>)
    requires IsNewest(p, rows) && !StartStands(start, rows, p.key)
    ensures SameRows(AllAdmitted(v), rows) && p.key in History(start, v) && History(start, v)[p.key] == p
  {
    v := IngestAll([p] + rows);
    IngestedOneByOne(start, [p] + rows);
    FirstOfTheNewestStays(start, p, rows);
  }

  /**
   Whatever the start, the amount of a key does not depend on the order and batching
   of the writes exactly when no row beats the start or the newest rows agree on it:
   on a tie the first one written stays, and in one batch the last.
   */
  lemma AmountIsDeterminedIff(start: Cache, rows: seq<Observation>, key: Key)
    requires KeysMatch(start)
    ensures AmountIsDetermined(start, rows, key) <==> StartStands(start, rows, key) || NewestAgree(rows, key)
  {
    if StartStands(start, rows, key) {
      forall v | SameRows(AllAdmitted(v), rows) && key in History(start, v)
        ensures History(start, v)[key] == start[key]
      {
        HistoryLeaves(start, v, key);
      }
    } else if NewestAgree(rows, key) {
      forall v | SameRows(AllAdmitted(v), rows) && key in History(start, v)
        ensures IsNewest(History(start, v)[key], rows) && History(start, v)[key].key == key
      {
        NewestIsShown(start, rows, v, key);
      }
    } else {
      var p, q :| IsNewest(p, rows) && IsNewest(q, rows) && p.key == q.key == key && p.amountOre != q.amountOre;
      var v := ShowsFirst(start, rows, p);
      var w := ShowsFirst(start, rows, q);
    }
  }

  /** The same two rows as one batch and as two writes leave different amounts. */
  lemma BatchAndSingleWritesDiffer()
    ensures var key := Key("70000001", "extra");
            var a, b := Observation(key, 100, 5), Observation(key, 200, 5);
            && History(map[], [Write.PutMany([a, b], 9)]) == map[key := b]
            && History(map[], [Ingest(a), Ingest(b)]) == map[key := a]
  {
    var key := Key("70000001", "extra");
    var a, b := Observation(key, 100, 5), Observation(key, 200, 5);
    TwoRows(a, b);
    OneWrite(map[], Write.PutMany([a, b], 9));
    TwoWrites(map[], Ingest(a), Ingest(b));
    OneUpsert(map[], b);
  }

  lemma OneUpsert(cache: Cache, row: Observation)
    ensures UpsertAll(cache, [row]) == Upsert(cache, row)
  {
    assert [row][..0] == [];
  }

  lemma OneWrite(cache: Cache, w: Write)
    ensures History(cache, [w]) == Store(cache, w)
  {
    assert [w][..0] == [];
  }

  lemma TwoWrites(cache: Cache, v: Write, w: Write)
    ensures History(cache, [v, w]) == Store(Store(cache, v), w)
  {
    assert [v, w][..1] == [v];
    OneWrite(cache, v);
  }

  lemma TwoRows(a: Observation, b: Observation)
    requires a.key == b.key && a.observedAt == b.observedAt <= 9
    ensures Dedupe(Cacheable([a, b], 9)) == [b]
  {
    assert [a, b][..1] == [a] && [a][..0] == [];
    assert Cacheable([a], 9) == [a] && Cacheable([a, b], 9) == [a, b];
    assert Dedupe([a]) == [a];
  }
}
