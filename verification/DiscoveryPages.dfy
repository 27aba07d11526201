/**
 Keyset pagination of catalog discovery
 (packages/db/src/public-catalog-index-reader.ts, `readDiscovery`), with
 offer-backed rows off, which is the default.

 The ordered candidates are given as an ascending list; the database and the
 program order text the same way, by code unit.
 */
module DiscoveryPages {
  import opened Wrappers
  import CatalogResolution

  const DISCOVERY_SCAN_LIMIT_MAXIMUM := 50
  const DISCOVERY_SORT_NAME_MAX_LENGTH := 500

  datatype Position = Position(rank: int, sortName: string, gtin: string)

  /** What classification and category parsing make of a row: shown, skipped, or reason to give up. */
  datatype Verdict = Show | Skip | Broken

  datatype Row = Row(position: Position, product: int, verdict: Verdict)

  datatype Page = Page(entries: seq<Row>, hasMore: bool, next: Option<Position>, scannedCount: nat)

  datatype Reading = Read(page: Page) | Unavailable | InvalidRequest

  // ----- The order of positions

  predicate TextLess(a: string, b: string) {
    if b == "" then false
    else if a == "" then true
    else a[0] < b[0] || (a[0] == b[0] && TextLess(a[1..], b[1..]))
  }

  predicate Less(p: Position, q: Position) {
    || p.rank < q.rank
    || (p.rank == q.rank && TextLess(p.sortName, q.sortName))
    || (p.rank == q.rank && p.sortName == q.sortName && TextLess(p.gtin, q.gtin))
  }

  lemma {:induction false} TextOrder(a: string, b: string)
    ensures TextLess(a, b) || a == b || TextLess(b, a)
    ensures !(TextLess(a, b) && TextLess(b, a)) && !TextLess(a, a)
  {
    if a != "" { TextOrder(a[1..], a[1..]); }
    if a != "" && b != "" {
      TextOrder(a[1..], b[1..]);
      if a[0] == b[0] && a[1..] == b[1..] {
        assert a == [a[0]] + a[1..] && b == [b[0]] + b[1..];
      }
    }
  }

  lemma {:induction false} TextTransitive(a: string, b: string, c: string)
    requires TextLess(a, b) && TextLess(b, c)
    ensures TextLess(a, c)
  {
    if a != "" && a[0] == b[0] && b[0] == c[0] { TextTransitive(a[1..], b[1..], c[1..]); }
  }

  lemma Order(p: Position, q: Position)
    ensures Less(p, q) || p == q || Less(q, p)
    ensures !(Less(p, q) && Less(q, p)) && !Less(p, p)
  {
    TextOrder(p.sortName, q.sortName);
    TextOrder(p.gtin, q.gtin);
    TextOrder(p.sortName, p.sortName);
    TextOrder(p.gtin, p.gtin);
  }

  lemma Transitive(p: Position, q: Position, r: Position)
    requires Less(p, q) && Less(q, r)
    ensures Less(p, r)
  {
    if TextLess(p.sortName, q.sortName) && TextLess(q.sortName, r.sortName) {
      TextTransitive(p.sortName, q.sortName, r.sortName);
    }
    if TextLess(p.gtin, q.gtin) && TextLess(q.gtin, r.gtin) { TextTransitive(p.gtin, q.gtin, r.gtin); }
  }

  ghost predicate Ascending(rows: seq<Row>) {
    forall i, j | 0 <= i < j < |rows| :: Less(rows[i].position, rows[j].position)
  }

  predicate DistinctProducts(rows: seq<Row>) {
    forall i, j | 0 <= i < j < |rows| :: rows[i].product != rows[j].product
  }

  predicate DistinctGtins(rows: seq<Row>) {
    forall i, j | 0 <= i < j < |rows| :: rows[i].position.gtin != rows[j].position.gtin
  }

  /** The keys of the duplicate check: the GTINs when the query is one, else the products. */
  predicate DistinctKeys(rows: seq<Row>, exact: bool) {
    if exact then DistinctGtins(rows) else DistinctProducts(rows)
  }

  /** No two shown rows have the same product or the same GTIN. */
  predicate DistinctShown(rows: seq<Row>) {
    forall i, j | 0 <= i < j < |rows| && rows[i].verdict.Show? && rows[j].verdict.Show? ::
      rows[i].product != rows[j].product && rows[i].position.gtin != rows[j].position.gtin
  }

  // ----- One page

  predicate Beyond(cursor: Option<Position>, p: Position) {
    cursor.None? || Less(cursor.value, p)
  }

  /** The candidates past the cursor, in order. */
  function After(rows: seq<Row>, cursor: Option<Position>): (r: seq<Row>)
    ensures |r| <= |rows|
  {
    if rows == [] then []
    else (if Beyond(cursor, rows[0].position) then [rows[0]] else []) + After(rows[1..], cursor)
  }

  function Shown(rows: seq<Row>): seq<Row> {
    if rows == [] then []
    else
      var before, last := Shown(rows[..|rows| - 1]), rows[|rows| - 1];
      if last.verdict.Show? then before + [last] else before
  }

  function Take(rows: seq<Row>, n: nat): seq<Row> {
    if |rows| <= n then rows else rows[..n]
  }

  /** A position that a request may carry as its cursor. */
  predicate ValidPosition(p: Position) {
    && CatalogResolution.IsValidGtin(p.gtin)
    && 0 <= p.rank <= 4
    && 1 <= |p.sortName| <= DISCOVERY_SORT_NAME_MAX_LENGTH
  }

  predicate Breaks(row: Row) {
    row.verdict.Broken? || !ValidPosition(row.position)
  }

  /** The scan of the page rows finds nothing to give up on. */
  predicate Scannable(rows: seq<Row>) {
    (forall i | 0 <= i < |rows| :: !Breaks(rows[i])) && DistinctShown(rows)
  }

  /** What the scan of the page rows answers; `more` says that another row followed them. */
  function PageOf(rows: seq<Row>, more: bool): Reading {
    if !Scannable(rows) then Unavailable
    else Read(Page(Shown(rows), more, if more && rows != [] then Some(rows[|rows| - 1].position) else None, |rows|))
  }

  predicate ValidRequest(cursor: Option<Position>, limit: int) {
    1 <= limit <= DISCOVERY_SCAN_LIMIT_MAXIMUM && (cursor.Some? ==> ValidPosition(cursor.value))
  }

  /** `exact` says that the query is a GTIN. */
  function ReadPage(rows: seq<Row>, exact: bool, cursor: Option<Position>, limit: int): Reading {
    if !ValidRequest(cursor, limit) then InvalidRequest
    else
      var scanned := Take(After(rows, cursor), DISCOVERY_SCAN_LIMIT_MAXIMUM + 1);
      if !DistinctKeys(scanned, exact) then Unavailable else PageOf(Take(scanned, limit), |scanned| > limit)
  }

  // ----- The page loop

  method ReadDiscovery(rows: seq<Row>, exact: bool, cursor: Option<Position>, limit: int) returns (r: Reading)
    ensures r == ReadPage(rows, exact, cursor, limit)
  {
    if !ValidRequest(cursor, limit) {
      return InvalidRequest;
    }
    var scanned := Take(After(rows, cursor), DISCOVERY_SCAN_LIMIT_MAXIMUM + 1);
    var distinct := CheckKeys(scanned, exact);
    if !distinct {
      return Unavailable;
    }
    r := ScanPage(Take(scanned, limit), |scanned| > limit);
  }

  /** The duplicate check over all scanned rows. */
  method CheckKeys(scanned: seq<Row>, exact: bool) returns (ok: bool)
    ensures ok <==> DistinctKeys(scanned, exact)
  {
    var seen: set<Key> := {};
    for i := 0 to |scanned|
      invariant DistinctKeys(scanned[..i], exact)
      invariant forall k :: k in seen <==> exists j :: 0 <= j < i && KeyOf(scanned[j], exact) == k
    {
      if KeyOf(scanned[i], exact) in seen {
        return false;
      }
      seen := seen + {KeyOf(scanned[i], exact)};
      assert scanned[..i + 1] == scanned[..i] + [scanned[i]];
    }
    assert scanned[..|scanned|] == scanned;
    return true;
  }

  datatype Key = Gtin(gtin: string) | Product(product: int)

  function KeyOf(row: Row, exact: bool): Key {
    if exact then Gtin(row.position.gtin) else Product(row.product)
  }

  method ScanPage(page: seq<Row>, more: bool) returns (r: Reading)
    ensures r == PageOf(page, more)
  {
    hide Breaks;
    var entries: seq<Row> := [];
    var next: Option<Position> := None;
    var products: set<int> := {};
    var gtins: set<string> := {};
    for i := 0 to |page|
      invariant Scannable(page[..i])
      invariant entries == Shown(page[..i])
      invariant next == if i == 0 then None else Some(page[i - 1].position)
      invariant forall p :: p in products <==> exists j :: 0 <= j < i && page[j].verdict.Show? && page[j].product == p
      invariant forall g :: g in gtins <==>
                  exists j :: 0 <= j < i && page[j].verdict.Show? && page[j].position.gtin == g
    {
      assert page[..i + 1] == page[..i] + [page[i]];
      if Breaks(page[i]) {
        NotScannable(page, i);
        return Unavailable;
      }
      next := Some(page[i].position);
      if page[i].verdict.Show? {
        if page[i].product in products || page[i].position.gtin in gtins {
          NotScannable(page, i);
          return Unavailable;
        }
        products := products + {page[i].product};
        gtins := gtins + {page[i].position.gtin};
        entries := entries + [page[i]];
      }
    }
    assert page[..|page|] == page;
    r := Read(Page(entries, more, if more then next else None, |page|));
  }

  lemma NotScannable(page: seq<Row>, i: nat)
    requires i < |page|
    requires || Breaks(page[i])
             || (page[i].verdict.Show?
                 && exists j :: 0 <= j < i && page[j].verdict.Show?
                      && (page[j].product == page[i].product || page[j].position.gtin == page[i].position.gtin))
    ensures !Scannable(page)
  {
  }

  // ----- Following the cursor

  /** Rows behind one that is past the cursor are past it too. */
  lemma BeyondOnwards(rows: seq<Row>, cursor: Option<Position>)
    requires Ascending(rows) && rows != [] && Beyond(cursor, rows[0].position)
    ensures forall i | 0 <= i < |rows[1..]| :: Beyond(cursor, rows[1..][i].position)
  {
    forall i | 0 <= i < |rows[1..]| ensures Beyond(cursor, rows[1..][i].position) {
      assert Less(rows[0].position, rows[i + 1].position);
      if cursor.Some? { Transitive(cursor.value, rows[0].position, rows[i + 1].position); }
    }
  }

  lemma TailAscends(rows: seq<Row>, k: nat)
    requires k <= |rows|
    ensures Ascending(rows) ==> Ascending(rows[k..])
  {
  }

  /** The candidates past a cursor are a suffix of the ordered candidates. */
  lemma {:induction false} AfterIsASuffix(rows: seq<Row>, cursor: Option<Position>)
    requires Ascending(rows)
    ensures After(rows, cursor) == rows[|rows| - |After(rows, cursor)|..]
  {
    if rows != [] {
      var rest := rows[1..];
      TailAscends(rows, 1);
      if Beyond(cursor, rows[0].position) {
        BeyondOnwards(rows, cursor);
        AllBeyond(rest, cursor);
        assert rows == [rows[0]] + rest;
      } else {
        AfterIsASuffix(rest, cursor);
        assert After(rows, cursor) == After(rest, cursor);
      }
    }
  }

  lemma {:induction false} AllBeyond(rows: seq<Row>, cursor: Option<Position>)
    requires forall i | 0 <= i < |rows| :: Beyond(cursor, rows[i].position)
    ensures After(rows, cursor) == rows
  {
    if rows != [] {
      AllBeyond(rows[1..], cursor);
      assert rows == [rows[0]] + rows[1..];
    }
  }

  lemma {:induction false} NoneBeyond(rows: seq<Row>, cursor: Option<Position>)
    requires forall i | 0 <= i < |rows| :: !Beyond(cursor, rows[i].position)
    ensures After(rows, cursor) == []
  {
    if rows != [] { NoneBeyond(rows[1..], cursor); }
  }

  lemma {:induction false} AfterConcat(a: seq<Row>, b: seq<Row>, cursor: Option<Position>)
    ensures After(a + b, cursor) == After(a, cursor) + After(b, cursor)
  {
    if a == [] {
      assert a + b == b;
    } else {
      assert (a + b)[0] == a[0] && (a + b)[1..] == a[1..] + b;
      AfterConcat(a[1..], b, cursor);
    }
  }

  lemma BeyondIffLater(rows: seq<Row>, k: nat, i: nat)
    requires Ascending(rows) && k < |rows| && i < |rows|
    ensures Beyond(Some(rows[k].position), rows[i].position) <==> k < i
  {
    if i < k {
      assert Less(rows[i].position, rows[k].position);
    }
    Order(rows[i].position, rows[k].position);
  }

  lemma FrontIsNotBeyond(rows: seq<Row>, k: nat)
    requires Ascending(rows) && k < |rows|
    ensures After(rows[..k + 1], Some(rows[k].position)) == []
  {
    var front := rows[..k + 1];
    forall i | 0 <= i < |front| ensures !Beyond(Some(rows[k].position), front[i].position) {
      BeyondIffLater(rows, k, i);
    }
    NoneBeyond(front, Some(rows[k].position));
  }

  lemma BackIsBeyond(rows: seq<Row>, k: nat)
    requires Ascending(rows) && k < |rows|
    ensures After(rows[k + 1..], Some(rows[k].position)) == rows[k + 1..]
  {
    var back := rows[k + 1..];
    forall i | 0 <= i < |back| ensures Beyond(Some(rows[k].position), back[i].position) {
      BeyondIffLater(rows, k, k + 1 + i);
    }
    AllBeyond(back, Some(rows[k].position));
  }

  /** A cursor taken from a row resumes right behind that row. */
  lemma ResumesBehind(rows: seq<Row>, k: nat)
    requires Ascending(rows) && k < |rows|
    ensures After(rows, Some(rows[k].position)) == rows[k + 1..]
  {
    hide After, Ascending;
    FrontIsNotBeyond(rows, k);
    BackIsBeyond(rows, k);
    AfterConcat(rows[..k + 1], rows[k + 1..], Some(rows[k].position));
    assert rows == rows[..k + 1] + rows[k + 1..];
  }

  /** The next request continues exactly where the page ended. */
  lemma NextPageContinues(rows: seq<Row>, exact: bool, cursor: Option<Position>, limit: int)
    requires Ascending(rows) && ReadPage(rows, exact, cursor, limit).Read?
             && ReadPage(rows, exact, cursor, limit).page.hasMore
    ensures var page := ReadPage(rows, exact, cursor, limit).page;
            && page.next.Some? && ValidRequest(page.next, limit)
            && page.scannedCount == limit < |After(rows, cursor)|
            && After(rows, page.next) == After(rows, cursor)[limit..]
  {
    var rest := After(rows, cursor);
    AfterIsASuffix(rows, cursor);
    var k := |rows| - |rest| + limit - 1;
    assert rest[limit - 1] == rows[k];
    ResumesBehind(rows, k);
    assert rows[k + 1..] == rest[limit..];
    PageRows(rest, limit);
    assert !Breaks(rest[limit - 1]) by { assert Take(rest, limit)[limit - 1] == rest[limit - 1]; }
  }

  /** All pages from a cursor on, following `next` while there is more; nothing if a page cannot be read. */
  function Follow(rows: seq<Row>, exact: bool, cursor: Option<Position>, limit: int): Option<seq<Page>>
    requires Ascending(rows)
    decreases |After(rows, cursor)|
  {
    var reading := ReadPage(rows, exact, cursor, limit);
    if !reading.Read? then None
    else if !reading.page.hasMore then Some([reading.page])
    else
      NextPageContinues(rows, exact, cursor, limit);
      match Follow(rows, exact, reading.page.next, limit)
      case None => None
      case Some(pages) => Some([reading.page] + pages)
  }

  function AllEntries(pages: seq<Page>): seq<Row> {
    if pages == [] then [] else pages[0].entries + AllEntries(pages[1..])
  }

  function TotalScanned(pages: seq<Page>): nat {
    if pages == [] then 0 else pages[0].scannedCount + TotalScanned(pages[1..])
  }

  lemma {:induction false} ShownConcat(a: seq<Row>, b: seq<Row>)
    ensures Shown(a + b) == Shown(a) + Shown(b)
  {
    if b == [] {
      assert a + b == a;
    } else {
      assert (a + b)[..|a + b| - 1] == a + b[..|b| - 1];
      ShownConcat(a, b[..|b| - 1]);
    }
  }

  ghost predicate NoneBreaks(rows: seq<Row>) {
    forall i | 0 <= i < |rows| :: !Breaks(rows[i])
  }

  /**
   Pages visit the given candidates: every one scanned once, the shown ones in order,
   `hasMore` on all but the last.
   */
  ghost predicate Visits(pages: seq<Page>, candidates: seq<Row>, limit: int) {
    && AllEntries(pages) == Shown(candidates)
    && TotalScanned(pages) == |candidates|
    && pages != []
    && (forall i | 0 <= i < |pages| - 1 :: pages[i].hasMore && pages[i].scannedCount == limit)
    && !pages[|pages| - 1].hasMore && pages[|pages| - 1].next.None?
  }

  /** Every page of the walk can be read: its rows can be scanned and the rows looked ahead at have distinct keys. */
  ghost predicate Readable(rest: seq<Row>, exact: bool, limit: nat)
    requires limit > 0
    decreases |rest|
  {
    && DistinctKeys(Take(rest, DISCOVERY_SCAN_LIMIT_MAXIMUM + 1), exact)
    && Scannable(Take(rest, limit))
    && (|rest| > limit ==> Readable(rest[limit..], exact, limit))
  }

  /**
   Following `nextPosition` from any valid cursor terminates and visits every later
   candidate exactly once, in order and across skipped rows; it fails exactly when
   one of the pages cannot be read.
   */
  lemma {:induction false} FollowVisitsEverything(rows: seq<Row>, exact: bool, cursor: Option<Position>, limit: int)
    requires Ascending(rows) && ValidRequest(cursor, limit)
    ensures Follow(rows, exact, cursor, limit).Some? <==> Readable(After(rows, cursor), exact, limit)
    ensures Follow(rows, exact, cursor, limit).Some?
            ==> Visits(Follow(rows, exact, cursor, limit).value, After(rows, cursor), limit)
    decreases |After(rows, cursor)|
  {
    var rest := After(rows, cursor);
    var reading := ReadPage(rows, exact, cursor, limit);
    PageRows(rest, limit);
    if reading.Read? && reading.page.hasMore {
      NextPageContinues(rows, exact, cursor, limit);
      FollowVisitsEverything(rows, exact, reading.page.next, limit);
      if Follow(rows, exact, reading.page.next, limit).Some? {
        OnePageMore(reading.page, Follow(rows, exact, reading.page.next, limit).value, rest, limit);
      }
    } else if reading.Read? {
      var pages := [reading.page];
      assert pages[1..] == [];
      assert AllEntries(pages) == reading.page.entries + [];
    }
  }

  lemma SliceIsDistinct(rows: seq<Row>, exact: bool, from: nat, to: nat)
    requires from <= to <= |rows| && DistinctKeys(rows, exact) && DistinctShown(rows)
    ensures DistinctKeys(rows[from..to], exact) && DistinctShown(rows[from..to])
  {
    hide Breaks;
  }

  /** With distinct keys, products and GTINs only a broken candidate can stop the walk. */
  lemma {:induction false} OnlyBrokenRowsStop(rest: seq<Row>, exact: bool, limit: nat)
    requires limit > 0 && DistinctKeys(rest, exact) && DistinctShown(rest)
    ensures Readable(rest, exact, limit) <==> NoneBreaks(rest)
    decreases |rest|
  {
    hide Breaks, DistinctKeys, DistinctShown;
    var ahead := if |rest| <= DISCOVERY_SCAN_LIMIT_MAXIMUM + 1 then |rest| else DISCOVERY_SCAN_LIMIT_MAXIMUM + 1;
    SliceIsDistinct(rest, exact, 0, ahead);
    assert rest[0..ahead] == Take(rest, DISCOVERY_SCAN_LIMIT_MAXIMUM + 1);
    if |rest| > limit {
      SliceIsDistinct(rest, exact, 0, limit);
      SliceIsDistinct(rest, exact, limit, |rest|);
      assert rest[0..limit] == Take(rest, limit) == rest[..limit] && rest[limit..|rest|] == rest[limit..];
      OnlyBrokenRowsStop(rest[limit..], exact, limit);
      SplitAt(rest, limit);
    } else {
      assert Take(rest, limit) == rest;
    }
  }

  lemma PageRows(rest: seq<Row>, limit: nat)
    requires 1 <= limit <= DISCOVERY_SCAN_LIMIT_MAXIMUM
    ensures var scanned := Take(rest, DISCOVERY_SCAN_LIMIT_MAXIMUM + 1);
            Take(scanned, limit) == Take(rest, limit) && (|scanned| > limit <==> |rest| > limit)
  {
  }

  lemma SplitAt(rest: seq<Row>, limit: nat)
    requires limit <= |rest|
    ensures NoneBreaks(rest) <==> NoneBreaks(rest[..limit]) && NoneBreaks(rest[limit..])
    ensures Shown(rest) == Shown(rest[..limit]) + Shown(rest[limit..])
  {
    var front, back := rest[..limit], rest[limit..];
    assert rest == front + back;
    ShownConcat(front, back);
    NoneBreaksConcat(front, back);
  }

  lemma NoneBreaksConcat(a: seq<Row>, b: seq<Row>)
    ensures NoneBreaks(a + b) <==> NoneBreaks(a) && NoneBreaks(b)
  {
    if NoneBreaks(a + b) {
      forall i | 0 <= i < |a| ensures !Breaks(a[i]) { assert a[i] == (a + b)[i]; }
      forall i | 0 <= i < |b| ensures !Breaks(b[i]) { assert b[i] == (a + b)[|a| + i]; }
    }
  }

  lemma OnePageMore(page: Page, pages: seq<Page>, rest: seq<Row>, limit: nat)
    requires limit <= |rest| && page.entries == Shown(rest[..limit]) && page.scannedCount == limit && page.hasMore
    requires Visits(pages, rest[limit..], limit)
    ensures Visits([page] + pages, rest, limit)
  {
    SplitAt(rest, limit);
    assert ([page] + pages)[1..] == pages;
  }

  // ----- What a request is answered

  ghost predicate IsPosition(p: Position) {
    CatalogResolution.IsValidGtin(p.gtin) && p.rank in {0, 1, 2, 3, 4} && 1 <= |p.sortName| <= 500
  }

  /** Two of the first n rows have the same key: the GTIN when the query is one, else the product. */
  ghost predicate HasTwice(rows: seq<Row>, exact: bool) {
    exists i, j :: 0 <= i < j < |rows|
      && if exact then rows[i].position.gtin == rows[j].position.gtin else rows[i].product == rows[j].product
  }

  /** A row that cannot be read, or two shown rows of one product or GTIN. */
  ghost predicate CannotBeShown(rows: seq<Row>) {
    || (exists i :: 0 <= i < |rows| && (rows[i].verdict.Broken? || !IsPosition(rows[i].position)))
    || (exists i, j :: 0 <= i < j < |rows| && rows[i].verdict.Show? && rows[j].verdict.Show?
          && (rows[i].product == rows[j].product || rows[i].position.gtin == rows[j].position.gtin))
  }

  /**
   A request is invalid exactly for a limit outside 1 to 50 or an impossible cursor, and unavailable exactly for
   duplicate keys among the 51 rows looked at or a page that cannot be shown. Otherwise the page shows the
   rows of its first `limit` candidates that are to be shown.
   */
  lemma AnswersAreExact(rows: seq<Row>, exact: bool, cursor: Option<Position>, limit: int)
    ensures var r, rest := ReadPage(rows, exact, cursor, limit), After(rows, cursor);
            && (r.InvalidRequest? <==> !(1 <= limit <= 50) || (cursor.Some? && !IsPosition(cursor.value)))
            && (!r.InvalidRequest? ==>
                  && (r.Unavailable? <==> HasTwice(Take(rest, 51), exact) || CannotBeShown(Take(rest, limit)))
                  && (r.Read? ==> r.page.entries == Shown(Take(rest, limit)) && (r.page.hasMore <==> |rest| > limit)))
  {
    var rest := After(rows, cursor);
    if ValidRequest(cursor, limit) {
      PageRows(rest, limit);
      KeysOnce(Take(rest, 51), exact);
      ScannableIs(Take(rest, limit));
    }
    hide DistinctKeys, HasTwice, Scannable, CannotBeShown, After, Shown;
  }

  lemma KeysOnce(rows: seq<Row>, exact: bool)
    ensures DistinctKeys(rows, exact) <==> !HasTwice(rows, exact)
  {
  }

  lemma ScannableIs(rows: seq<Row>)
    ensures Scannable(rows) <==> !CannotBeShown(rows)
  {
    assert forall p :: ValidPosition(p) <==> IsPosition(p);
    hide ValidPosition, IsPosition;
  }

  lemma ShownOfOne(row: Row)
    ensures Shown([row]) == if row.verdict.Show? then [row] else []
  {
    assert Shown([row][..0]) == [];
  }
}
