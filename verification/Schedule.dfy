/**
 Schedule slots and job ids (apps/worker/src/schedule.ts). Times are milliseconds;
 a timestamp's text is canonical, so equal texts are equal times.
 */
module Schedule {
  import opened Wrappers

  const MAX_INTERVAL_MS := 365 * 24 * 60 * 60 * 1000
  const MAX_JOB_ID_LENGTH := 200

  datatype JobKind =
    | CatalogRefresh | BenchmarkPriceRefresh | StoreCatalogPriceRefresh | PhysicalStoreSync
    | HistoricalObservationCollection
    | OpenPricesBenchmarkRefresh
    | OfficialOfferDiscovery | OfficialOfferFetch | OfficialOfferIngestion | OfficialOfferLifecycleReconcile

  datatype Definition = Definition(anchorAt: int, intervalMs: int, kind: JobKind, source: string)

  predicate ValidInterval(d: Definition) { 1 <= d.intervalMs <= MAX_INTERVAL_MS }

  // ----- Slots

  function SlotIndex(d: Definition, now: int): int
    requires ValidInterval(d)
  {
    (now - d.anchorAt) / d.intervalMs
  }

  /** The newest slot not after `now`, unless it is not newer than the last one scheduled. */
  function NewestMissedSlot(d: Definition, last: Option<int>, now: int): Option<int>
    requires ValidInterval(d)
  {
    if now < d.anchorAt then None
    else
      var slot := d.anchorAt + SlotIndex(d, now) * d.intervalMs;
      if last.Some? && last.value >= slot then None else Some(slot)
  }

  ghost predicate IsSlot(d: Definition, slot: int) {
    slot >= d.anchorAt && exists k: nat :: slot == d.anchorAt + k * d.intervalMs
  }

  lemma DivisionBounds(n: nat, d: nat)
    requires d > 0
    ensures n / d * d <= n < n / d * d + d
  {
    assert n == n / d * d + n % d;
  }

  /**
   A job is due exactly when a slot after the last scheduled one has been reached;
   it is then the newest slot reached, and every older missed slot is skipped.
   */
  lemma NewestSlotIsNewest(d: Definition, last: Option<int>, now: int)
    requires ValidInterval(d)
    ensures var r := NewestMissedSlot(d, last, now);
            && (r.Some? ==>
                  && IsSlot(d, r.value) && r.value <= now < r.value + d.intervalMs
                  && (last.Some? ==> last.value < r.value))
            && (r.Some? ==> forall k: nat | d.anchorAt + k * d.intervalMs <= now ::
                  d.anchorAt + k * d.intervalMs <= r.value)
            && (r.None? ==> forall k: nat | d.anchorAt + k * d.intervalMs <= now ::
                  last.Some? && d.anchorAt + k * d.intervalMs <= last.value)
  {
    if now >= d.anchorAt {
      var index: nat := SlotIndex(d, now);
      var slot := d.anchorAt + index * d.intervalMs;
      DivisionBounds(now - d.anchorAt, d.intervalMs);
      forall k: nat | d.anchorAt + k * d.intervalMs <= now ensures d.anchorAt + k * d.intervalMs <= slot {
        NotPast(k, index, d.intervalMs, now - d.anchorAt);
      }
    } else {
      forall k: nat ensures d.anchorAt + k * d.intervalMs > now {
        assert k * d.intervalMs >= 0;
      }
    }
  }

  lemma NotPast(k: nat, index: nat, interval: nat, elapsed: int)
    requires interval > 0 && k * interval <= elapsed < index * interval + interval
    ensures k * interval <= index * interval
  {
    OneMoreInterval(index, k, interval);
    OneMoreInterval(k, index, interval);
  }

  lemma {:induction false} OneMoreInterval(a: nat, b: nat, interval: nat)
    ensures a < b ==> a * interval + interval <= b * interval
    decreases b
  {
    if a < b {
      assert b * interval == (b - 1) * interval + interval;
      OneMoreInterval(a, b - 1, interval);
    }
  }

  // ----- Job ids

  const FNV_64_OFFSET: nat := 0xcbf29ce484222325
  const FNV_64_PRIME: nat := 0x100000001b3
  const TWO_TO_THE_64: nat := 0x1_0000_0000_0000_0000

  function TwoTo(n: nat): nat {
    if n == 0 then 1 else 2 * TwoTo(n - 1)
  }

  lemma TwoToSixteen()
    ensures TwoTo(16) == 0x10000
  {
    assert TwoTo(4) == 16;
    assert TwoTo(8) == 0x100;
    assert TwoTo(12) == 0x1000;
  }

  /** Exclusive or of the low bits. */
  function XorBits(a: nat, b: nat, bits: nat): (r: nat)
    ensures r < TwoTo(bits)
  {
    if bits == 0 then 0
    else 2 * XorBits(a / 2, b / 2, bits - 1) + if a % 2 == b % 2 then 0 else 1
  }

  /** A code unit only touches the low sixteen bits. */
  function Xor(h: nat, code: nat): (r: nat)
    requires h < TWO_TO_THE_64 && code < 0x10000
    ensures r < TWO_TO_THE_64
  {
    TwoToSixteen();
    h - h % 0x10000 + XorBits(h % 0x10000, code, 16)
  }

  /** UTF-16 code units. */
  type CodeUnits = s: seq<nat> | forall i | 0 <= i < |s| :: s[i] < 0x10000

  function Hash(units: CodeUnits): (h: nat)
    ensures h < TWO_TO_THE_64
  {
    if units == [] then FNV_64_OFFSET
    else Xor(Hash(units[..|units| - 1]), units[|units| - 1]) * FNV_64_PRIME % TWO_TO_THE_64
  }

  function HexDigit(n: nat): char
    requires n < 16
  {
    "0123456789abcdef"[n]
  }

  /** Sixteen hexadecimal digits, padded with zeros. */
  function Hex(n: nat, digits: nat): (s: string)
    ensures |s| == digits
  {
    if digits == 0 then "" else Hex(n / 16, digits - 1) + [HexDigit(n % 16)]
  }

  method StableHash(units: CodeUnits) returns (text: string)
    ensures text == Hex(Hash(units), 16)
  {
    var hash: nat := FNV_64_OFFSET;
    for i := 0 to |units|
      invariant hash < TWO_TO_THE_64 && hash == Hash(units[..i])
    {
      assert units[..i + 1][..i] == units[..i];
      hash := Xor(hash, units[i]);
      hash := hash * FNV_64_PRIME % TWO_TO_THE_64;
    }
    assert units[..|units|] == units;
    text := Hex(hash, 16);
  }

  // ----- What the hash is

  predicate Bit(n: nat, k: nat) { if k == 0 then n % 2 == 1 else Bit(n / 2, k - 1) }

  /** Bit by bit: set where exactly one of the two is. */
  lemma {:induction false} XorIsBitwise(a: nat, b: nat, bits: nat, k: nat)
    requires k < bits
    ensures Bit(XorBits(a, b, bits), k) <==> Bit(a, k) != Bit(b, k)
  {
    var rest := XorBits(a / 2, b / 2, bits - 1);
    assert (2 * rest) / 2 == rest && (2 * rest + 1) / 2 == rest;
    if k > 0 { XorIsBitwise(a / 2, b / 2, bits - 1, k - 1); }
  }

  /** The published value of the 64-bit FNV-1a hash of "a". */
  lemma HashOfA(units: CodeUnits)
    requires units == [0x61]
    ensures Hash(units) == 0xaf63dc4c8601ec8c
  {
    hide Xor;
    assert |units| == 1 && units[0] == 0x61 && units[..0] == [];
    HashOfOne(units);
    XorOfA();
    ProductOfA(Xor(FNV_64_OFFSET, 0x61));
  }

  lemma HashOfOne(units: CodeUnits)
    requires |units| == 1
    ensures Hash(units) == Xor(FNV_64_OFFSET, units[0]) * FNV_64_PRIME % TWO_TO_THE_64
  {
    hide Xor;
    assert units[..0] == [];
  }

  lemma ProductOfA(h: nat)
    requires h == 0xcbf29ce484222344
    ensures h * FNV_64_PRIME % TWO_TO_THE_64 == 0xaf63dc4c8601ec8c
  {
  }

  lemma XorUnfolds(a: nat, b: nat, bits: nat)
    requires bits > 0
    ensures XorBits(a, b, bits) == 2 * XorBits(a / 2, b / 2, bits - 1) + if a % 2 == b % 2 then 0 else 1
  {
  }

  lemma XorOfNothing(a: nat, b: nat)
    ensures XorBits(a, b, 0) == 0
  {
  }

  lemma LowBitsOfA()
    ensures XorBits(0x2325, 0x61, 16) == 0x2344
  {
    hide XorBits;
    XorOfNothing(0, 0);
    XorUnfolds(0x0, 0x0, 1);
    XorUnfolds(0x0, 0x0, 2);
    XorUnfolds(0x1, 0x0, 3);
    XorUnfolds(0x2, 0x0, 4);
    XorUnfolds(0x4, 0x0, 5);
    XorUnfolds(0x8, 0x0, 6);
    XorUnfolds(0x11, 0x0, 7);
    XorUnfolds(0x23, 0x0, 8);
    XorUnfolds(0x46, 0x0, 9);
    XorUnfolds(0x8c, 0x1, 10);
    XorUnfolds(0x119, 0x3, 11);
    XorUnfolds(0x232, 0x6, 12);
    XorUnfolds(0x464, 0xc, 13);
    XorUnfolds(0x8c9, 0x18, 14);
    XorUnfolds(0x1192, 0x30, 15);
    XorUnfolds(0x2325, 0x61, 16);
  }

  lemma XorOfA()
    ensures Xor(FNV_64_OFFSET, 0x61) == 0xcbf29ce484222344
  {
    hide XorBits, TwoTo;
    LowBitsOfA();
    assert FNV_64_OFFSET % 0x10000 == 0x2325;
  }

  function DigitValue(c: char): nat {
    if '0' <= c <= '9' then (c - '0') as nat
    else if 'a' <= c <= 'f' then (c - 'a') as nat + 10
    else 16
  }

  lemma DigitReadsBack(n: nat)
    requires n < 16
    ensures DigitValue(HexDigit(n)) == n
  {
    assert "0123456789abcdef"[n] == if n < 10 then '0' + n as char else 'a' + (n - 10) as char;
  }

  function HexValue(s: string): nat {
    if s == "" then 0 else 16 * HexValue(s[..|s| - 1]) + DigitValue(s[|s| - 1])
  }

  function SixteenTo(n: nat): nat { if n == 0 then 1 else 16 * SixteenTo(n - 1) }

  /** The printed digits are lower-case hexadecimal and read back as the number. */
  lemma {:induction false} HexReadsBack(n: nat, digits: nat)
    requires n < SixteenTo(digits)
    ensures HexValue(Hex(n, digits)) == n
    ensures forall c | c in Hex(n, digits) :: DigitValue(c) < 16
  {
    if digits > 0 {
      HexReadsBack(n / 16, digits - 1);
      DigitReadsBack(n % 16);
      hide DigitValue, HexDigit;
      var front := Hex(n / 16, digits - 1);
      assert Hex(n, digits)[..digits - 1] == front;
    }
  }

  function KindText(kind: JobKind): (text: string)
    ensures 15 <= |text| <= 34
  {
    match kind
    case CatalogRefresh => "catalog-refresh"
    case BenchmarkPriceRefresh => "benchmark-price-refresh"
    case StoreCatalogPriceRefresh => "store-catalog-price-refresh"
    case PhysicalStoreSync => "physical-store-sync"
    case HistoricalObservationCollection => "historical-observation-collection"
    case OpenPricesBenchmarkRefresh => "open-prices-benchmark-refresh"
    case OfficialOfferDiscovery => "official-offer-discovery"
    case OfficialOfferFetch => "official-offer-fetch"
    case OfficialOfferIngestion => "official-offer-ingestion"
    case OfficialOfferLifecycleReconcile => "official-offer-lifecycle-reconcile"
  }

  lemma KindTextsDiffer(k: JobKind, l: JobKind)
    requires KindText(k) == KindText(l)
    ensures k == l
  {
    if |KindText(k)| == 24 && |KindText(l)| == 24 {
      assert KindText(OfficialOfferDiscovery)[15] == 'd' && KindText(OfficialOfferIngestion)[15] == 'i';
    }
  }

  lemma OfferKindTextHasNoColon(k: JobKind)
    requires k.OfficialOfferDiscovery? || k.OfficialOfferFetch? || k.OfficialOfferIngestion?
             || k.OfficialOfferLifecycleReconcile?
    ensures ':' !in KindText(k)
  {
  }

  lemma ProductKindTextHasNoColon(k: JobKind)
    requires k.CatalogRefresh? || k.BenchmarkPriceRefresh? || k.StoreCatalogPriceRefresh?
    ensures ':' !in KindText(k)
  {
  }

  lemma OtherKindTextHasNoColon(k: JobKind)
    requires k.PhysicalStoreSync? || k.HistoricalObservationCollection? || k.OpenPricesBenchmarkRefresh?
    ensures ':' !in KindText(k)
  {
  }

  lemma KindTextHasNoColon(k: JobKind)
    ensures ':' !in KindText(k)
  {
    hide KindText;
    if k.CatalogRefresh? || k.BenchmarkPriceRefresh? || k.StoreCatalogPriceRefresh? {
      ProductKindTextHasNoColon(k);
    } else if k.PhysicalStoreSync? || k.HistoricalObservationCollection? || k.OpenPricesBenchmarkRefresh? {
      OtherKindTextHasNoColon(k);
    } else {
      OfferKindTextHasNoColon(k);
    }
  }

  /** The text of a time: 24 characters, or 27 for years outside 0 to 9999, with exactly two colons. */
  predicate IsTimestamp(at: string) {
    && (|at| == 24 || |at| == 27)
    && exists i, j :: 0 <= i < j < |at| && at[i] == ':' && at[j] == ':'
         && forall k | 0 <= k < |at| && at[k] == ':' :: k == i || k == j
  }

  function FullId(source: string, kind: JobKind, requestedAt: string): string {
    source + ":" + KindText(kind) + ":" + requestedAt
  }

  function UnitsOf(s: string): CodeUnits {
    seq(|s|, i requires 0 <= i < |s| => s[i] as nat % 0x10000)
  }

  function Suffix(source: string, kind: JobKind, requestedAt: string): string {
    "~" + Hex(Hash(UnitsOf(FullId(source, kind, requestedAt))), 16) + ":" + KindText(kind) + ":" + requestedAt
  }

  function JobId(source: string, kind: JobKind, requestedAt: string): (id: string)
    requires IsTimestamp(requestedAt)
    ensures |id| <= MAX_JOB_ID_LENGTH
    ensures |FullId(source, kind, requestedAt)| > MAX_JOB_ID_LENGTH ==> |id| == MAX_JOB_ID_LENGTH
  {
    var full := FullId(source, kind, requestedAt);
    if |full| <= MAX_JOB_ID_LENGTH then full
    else
      var suffix := Suffix(source, kind, requestedAt);
      source[..MAX_JOB_ID_LENGTH - |suffix|] + suffix
  }

  /**
   An id is its source, kind and time, or as much of the source as fits before the hash of the whole id, the
   kind and the time.
   */
  lemma JobIdShape(source: string, kind: JobKind, requestedAt: string)
    requires IsTimestamp(requestedAt)
    ensures var id, end := JobId(source, kind, requestedAt), ":" + KindText(kind) + ":" + requestedAt;
            var whole := source + end;
            if |whole| <= MAX_JOB_ID_LENGTH then id == whole
            else
              var cut := MAX_JOB_ID_LENGTH - |end| - 17;
              && 0 < cut < |source| && |id| == MAX_JOB_ID_LENGTH
              && id[..cut] == source[..cut] && id[cut] == '~' && id[cut + 17..] == end
              && id[cut + 1..cut + 17] == Hex(Hash(UnitsOf(whole)), 16)
  {
    hide IsTimestamp, KindText, Hash, Hex;
    var end := ":" + KindText(kind) + ":" + requestedAt;
    assert FullId(source, kind, requestedAt) == source + end;
    var hash := Hex(Hash(UnitsOf(source + end)), 16);
    assert Suffix(source, kind, requestedAt) == "~" + hash + end;
    TimestampLength(requestedAt);
    if |source + end| > MAX_JOB_ID_LENGTH {
      var cut := MAX_JOB_ID_LENGTH - |end| - 17;
      var id := JobId(source, kind, requestedAt);
      assert id == source[..cut] + ("~" + hash + end);
      hide JobId, Suffix, FullId, UnitsOf;
      PartsOfFour(source[..cut], hash, end);
    }
  }

  lemma PartsOfFour(a: string, b: string, c: string)
    ensures var s := a + ("~" + b + c);
            s[..|a|] == a && s[|a|] == '~' && s[|a| + 1..|a| + 1 + |b|] == b && s[|a| + 1 + |b|..] == c
  {
    var s := a + ("~" + b + c);
    assert s == ((a + "~") + b) + c;
    assert s[|a| + 1 + |b|..] == c;
    assert s[..|a| + 1 + |b|] == (a + "~") + b;
    assert ((a + "~") + b)[|a| + 1..] == b;
  }

  lemma TimestampLength(at: string)
    requires IsTimestamp(at)
    ensures |at| == 24 || |at| == 27
  {
  }

  /** The last colon separates a text from a colon-free end. */
  lemma LastColon(front: string, end: string, front': string, end': string)
    requires ':' !in end && ':' !in end' && front + ":" + end == front' + ":" + end'
    ensures front == front' && end == end'
  {
    var text := front + ":" + end;
    var text' := front' + ":" + end';
    assert text[|front|] == ':' && text'[|front'|] == ':';
    assert forall i | |front| < i < |text| :: text[i] == end[i - |front| - 1];
    assert forall i | |front'| < i < |text'| :: text'[i] == end'[i - |front'| - 1];
    assert |front| == |front'|;
    assert text[..|front|] == front && text'[..|front'|] == front';
    assert text[|front| + 1..] == end && text'[|front'| + 1..] == end';
  }

  /** A timestamp as its three colon-free parts. */
  lemma Parts(at: string) returns (x: string, y: string, z: string)
    requires IsTimestamp(at)
    ensures at == x + ":" + y + ":" + z && ':' !in x && ':' !in y && ':' !in z
  {
    var i, j :| 0 <= i < j < |at| && at[i] == ':' && at[j] == ':'
                && forall k | 0 <= k < |at| && at[k] == ':' :: k == i || k == j;
    hide IsTimestamp;
    x, y, z := at[..i], at[i + 1..j], at[j + 1..];
    assert ':' !in y by { assert forall k | 0 <= k < |y| :: y[k] == at[i + 1 + k]; }
    assert ':' !in z by { assert forall k | 0 <= k < |z| :: z[k] == at[j + 1 + k]; }
    assert x + ":" + y == at[..j];
    assert at == at[..j] + ":" + z;
  }

  lemma SameParts(front: string, x: string, y: string, z: string, front': string, x': string, y': string, z': string)
    requires ':' !in x && ':' !in y && ':' !in z && ':' !in x' && ':' !in y' && ':' !in z'
    requires front + ":" + x + ":" + y + ":" + z == front' + ":" + x' + ":" + y' + ":" + z'
    ensures front == front' && x == x' && y == y' && z == z'
  {
    LastColon(front + ":" + x + ":" + y, z, front' + ":" + x' + ":" + y', z');
    LastColon(front + ":" + x, y, front' + ":" + x', y');
    LastColon(front, x, front', x');
  }

  lemma SameTimes(front: string, at: string, front': string, at': string)
    requires IsTimestamp(at) && IsTimestamp(at') && front + ":" + at == front' + ":" + at'
    ensures front == front' && at == at'
  {
    var x, y, z := Parts(at);
    var x', y', z' := Parts(at');
    hide IsTimestamp;
    assert front + ":" + at == front + ":" + x + ":" + y + ":" + z;
    assert front' + ":" + at' == front' + ":" + x' + ":" + y' + ":" + z';
    SameParts(front, x, y, z, front', x', y', z');
  }

  /** Untruncated ids are equal only for equal source, kind and time. */
  lemma UntruncatedIdsAreUnique(source: string, kind: JobKind, at: string, source': string, kind': JobKind, at': string)
    requires IsTimestamp(at) && IsTimestamp(at')
    requires |FullId(source, kind, at)| <= MAX_JOB_ID_LENGTH && |FullId(source', kind', at')| <= MAX_JOB_ID_LENGTH
    requires JobId(source, kind, at) == JobId(source', kind', at')
    ensures source == source' && kind == kind' && at == at'
  {
    hide IsTimestamp, KindText;
    SameTimes(source + ":" + KindText(kind), at, source' + ":" + KindText(kind'), at');
    KindTextHasNoColon(kind);
    KindTextHasNoColon(kind');
    LastColon(source, KindText(kind), source', KindText(kind'));
    KindTextsDiffer(kind, kind');
  }
}
