/**
 Product identity in the ingestion repository (packages/db/src/ingestion.ts:
 `catalogCanonicalMutationDecision`, `resolveProductByGtin`, `linkSourceProduct`,
 `appendCatalogObservation`, `persistCatalogOutcomes`, `persistPriceOutcomes`).

 Tables are maps; a product id is a position in `products`. A batch is one
 transaction: any error leaves the tables as they were. `interrupted` stands for
 the errors that come from outside these tables (fence, ledger conflict, cancellation).
 */
module ProductIdentity {
  import opened Wrappers
  import Rows = SourceProductRows

  datatype Status = Active | Quarantined | Retired

  /** The fields a catalog record can correct; absent ones already carry their defaults. */
  datatype Fields = Fields(brand: Option<string>, displayName: string, packageAmount: Option<int>,
                           packageUnit: Option<string>, unitsPerPack: nat)

  datatype Product = Product(fields: Fields, status: Status, updatedAt: Option<int>)

  datatype Incoming = Incoming(fields: Fields, retrievedAt: int, sourceUpdatedAt: Option<int>)

  datatype Identifier = Identifier(product: nat, verifiedAt: Option<int>)

  /** A source's own name for a record. */
  datatype SourceKey = SourceKey(source: string, recordId: string)

  datatype SourceFact = SourceFact(product: nat, fields: Fields)

  /** `source` is the source of the observation's run. */
  datatype Observation = Observation(run: nat, source: string, recordId: string, product: nat,
                                     retrievedAt: int, sourceUpdatedAt: Option<int>)

  datatype Tables = Tables(products: seq<Product>, gtins: map<string, Identifier>, sourceIds: map<SourceKey, nat>,
                           sourceRows: map<SourceKey, Rows.Row<SourceFact>>, observations: seq<Observation>)

  datatype RunHandle = RunHandle(id: nat, source: string)

  /** `validGtin` and `gtin` matter only for accepted outcomes; `hash` is the digest of the audited record. */
  datatype CatalogOutcome = CatalogOutcome(accepted: bool, recordId: string, gtin: string, validGtin: bool,
                                           product: Incoming, hash: int)

  /** A price outcome resolves a product when it names both a chain and a GTIN. */
  datatype PriceOutcome = PriceOutcome(subject: Option<string>, validGtin: bool)

  // ----- The mutation decision

  datatype Decision = Activate | Correct | NoChange | Review

  /** `matched` is the version of the source's own earlier record, when that record is linked to this product. */
  function Decide(canonical: Product, incoming: Incoming, matched: Option<Option<int>>, approved: bool): Decision {
    if canonical.status.Retired? then Review
    else if canonical.status.Quarantined? then (if approved then Activate else Review)
    else if canonical.fields == incoming.fields then NoChange
    else if !approved || matched.None? || incoming.sourceUpdatedAt.None? then Review
    else if matched.value.Some? && incoming.sourceUpdatedAt.value <= matched.value.value then Review
    else Correct
  }

  // ----- Resolution

  predicate Counts(obs: Observation, h: RunHandle, recordId: string, product: nat, completed: set<nat>) {
    obs.run in completed && obs.source == h.source && obs.recordId == recordId && obs.product == product
  }

  /** The latest observation of the record in a completed run of its source; the later id wins a tie. */
  function LatestCompleted(observations: seq<Observation>, h: RunHandle, recordId: string, product: nat,
                           completed: set<nat>)
    : (r: Option<Observation>)
    ensures r.Some? ==> r.value in observations && Counts(r.value, h, recordId, product, completed)
    ensures forall obs | obs in observations && Counts(obs, h, recordId, product, completed) ::
              r.Some? && obs.retrievedAt <= r.value.retrievedAt
  {
    if observations == [] then None
    else
      var last := observations[|observations| - 1];
      var before := LatestCompleted(observations[..|observations| - 1], h, recordId, product, completed);
      if Counts(last, h, recordId, product, completed) && (before.None? || before.value.retrievedAt <= last.retrievedAt)
      then Some(last) else before
  }

  function MatchedVersion(t: Tables, h: RunHandle, o: CatalogOutcome, product: nat,
                          completed: set<nat>): Option<Option<int>> {
    var key := SourceKey(h.source, o.recordId);
    if key in t.sourceRows && t.sourceRows[key].payload.product == product then
      var prior := LatestCompleted(t.observations, h, o.recordId, product, completed);
      Some(if prior.Some? then prior.value.sourceUpdatedAt else None)
    else None
  }

  datatype Resolution = Resolved(tables: Tables, product: nat, review: bool) | Threw

  function Create(t: Tables, gtin: string, product: Product, verifiedAt: Option<int>): Tables {
    t.(products := t.products + [product], gtins := t.gtins[gtin := Identifier(|t.products|, verifiedAt)])
  }

  function Mutated(p: Product, incoming: Incoming, decision: Decision): Product {
    match decision
    case Activate => Product(incoming.fields, Active, Some(incoming.retrievedAt))
    case Correct => Product(incoming.fields, p.status, Some(incoming.retrievedAt))
    case _ => p
  }

  function ResolveKnown(t: Tables, h: RunHandle, o: CatalogOutcome, completed: set<nat>): Resolution
    requires o.gtin in t.gtins
  {
    var id := t.gtins[o.gtin];
    if id.product >= |t.products| then Threw
    else
      var canonical := t.products[id.product];
      var decision := Decide(canonical, o.product, MatchedVersion(t, h, o, id.product, completed), true);
      if decision.Review? then Resolved(t, id.product, true)
      else
        var verified := if id.verifiedAt.None? then id.(verifiedAt := Some(o.product.retrievedAt)) else id;
        Resolved(t.(products := t.products[id.product := Mutated(canonical, o.product, decision)],
                    gtins := t.gtins[o.gtin := verified]), id.product, false)
  }

  function ResolveCatalog(t: Tables, h: RunHandle, o: CatalogOutcome, completed: set<nat>): Resolution {
    if !o.validGtin then Threw
    else if o.gtin in t.gtins then ResolveKnown(t, h, o, completed)
    else
      var product := Product(o.product.fields, Active, Some(o.product.retrievedAt));
      Resolved(Create(t, o.gtin, product, Some(o.product.retrievedAt)), |t.products|, false)
  }

  function Stub(gtin: string): Product {
    Product(Fields(None, "Pending catalog match " + gtin, None, None, 1), Quarantined, None)
  }

  function ResolvePrice(t: Tables, o: PriceOutcome): Option<Tables> {
    if o.subject.None? then Some(t)
    else if !o.validGtin then None
    else if o.subject.value in t.gtins then Some(t)
    else Some(Create(t, o.subject.value, Stub(o.subject.value), None))
  }

  function Link(t: Tables, h: RunHandle, o: CatalogOutcome, product: nat): Option<Tables> {
    var key := SourceKey(h.source, o.recordId);
    var sighting := Rows.Sighting(o.product.retrievedAt, o.hash, SourceFact(product, o.product.fields));
    if key in t.sourceIds && t.sourceIds[key] != product then None
    else
      var row := if key in t.sourceRows then Rows.Updated(t.sourceRows[key], sighting) else Rows.Inserted(sighting);
      Some(t.(sourceIds := t.sourceIds[key := product], sourceRows := t.sourceRows[key := row]))
  }

  function Observe(t: Tables, h: RunHandle, o: CatalogOutcome, product: nat): Tables {
    if exists obs :: obs in t.observations && obs.run == h.id && obs.recordId == o.recordId then t
    else t.(observations := t.observations +
              [Observation(h.id, h.source, o.recordId, product, o.product.retrievedAt, o.product.sourceUpdatedAt)])
  }

  // ----- Batches

  function CatalogStep(t: Tables, h: RunHandle, completed: set<nat>, o: CatalogOutcome): Option<Tables> {
    if !o.accepted then Some(t)
    else
      match ResolveCatalog(t, h, o, completed)
      case Threw => None
      case Resolved(t', product, review) =>
        if review then Some(t') else Attach(t', h, o, product)
  }

  function Attach(t: Tables, h: RunHandle, o: CatalogOutcome, product: nat): Option<Tables> {
    match Link(t, h, o, product)
    case None => None
    case Some(t') => Some(Observe(t', h, o, product))
  }

  function CatalogBatch(t: Tables, h: RunHandle, completed: set<nat>, outcomes: seq<CatalogOutcome>): Option<Tables> {
    if outcomes == [] then Some(t)
    else
      match CatalogBatch(t, h, completed, outcomes[..|outcomes| - 1])
      case None => None
      case Some(t') => CatalogStep(t', h, completed, outcomes[|outcomes| - 1])
  }

  function PriceBatch(t: Tables, outcomes: seq<PriceOutcome>): Option<Tables> {
    if outcomes == [] then Some(t)
    else
      match PriceBatch(t, outcomes[..|outcomes| - 1])
      case None => None
      case Some(t') => ResolvePrice(t', outcomes[|outcomes| - 1])
  }

  /** `approved` is the rights check under the governance lock; without it only audit rows are written. */
  datatype Batch =
    | CatalogWrite(handle: RunHandle, completed: set<nat>, outcomes: seq<CatalogOutcome>, approved: bool,
                   interrupted: bool)
    | PriceWrite(prices: seq<PriceOutcome>, approved: bool, interrupted: bool)

  function Next(t: Tables, b: Batch): Tables {
    if b.interrupted || !b.approved then t
    else
      var result := if b.CatalogWrite? then CatalogBatch(t, b.handle, b.completed, b.outcomes)
        else PriceBatch(t, b.prices);
      if result.Some? then result.value else t
  }

  function Perform(t: Tables, batches: seq<Batch>): Tables {
    if batches == [] then t else Next(Perform(t, batches[..|batches| - 1]), batches[|batches| - 1])
  }

  // ----- Invariants

  ghost predicate Inv(t: Tables) {
    && (forall g | g in t.gtins :: t.gtins[g].product < |t.products|)
    && (forall g, g' | g in t.gtins && g' in t.gtins && g != g' :: t.gtins[g].product != t.gtins[g'].product)
    && (forall k | k in t.sourceIds :: t.sourceIds[k] < |t.products|)
    && (forall k | k in t.sourceRows :: RowInv(t, k))
  }

  /** A source row names the product its key is bound to. */
  ghost predicate RowInv(t: Tables, k: SourceKey)
    requires k in t.sourceRows
  {
    && k in t.sourceIds
    && t.sourceRows[k].payload.product == t.sourceIds[k]
    && t.sourceRows[k].firstSeenAt <= t.sourceRows[k].lastSeenAt
  }

  /** What a product may become: itself, or active if it was active or quarantined. A retired one stays as it is. */
  ghost predicate Evolves(p: Product, p': Product) {
    p == p' || (!p.status.Retired? && p'.status.Active?)
  }

  ghost predicate IdentifierKept(id: Identifier, id': Identifier) {
    id'.product == id.product && (id.verifiedAt.Some? ==> id' == id)
  }

  ghost predicate Kept(t: Tables, t': Tables) {
    && |t.products| <= |t'.products|
    && (forall p | 0 <= p < |t.products| :: Evolves(t.products[p], t'.products[p]))
    && (forall g | g in t.gtins :: g in t'.gtins && IdentifierKept(t.gtins[g], t'.gtins[g]))
    && (forall k | k in t.sourceIds :: k in t'.sourceIds && t'.sourceIds[k] == t.sourceIds[k])
    && (forall k | k in t.sourceRows :: k in t'.sourceRows
          && t'.sourceRows[k].firstSeenAt == t.sourceRows[k].firstSeenAt
          && t'.sourceRows[k].lastSeenAt >= t.sourceRows[k].lastSeenAt)
    && t.observations <= t'.observations
  }

  lemma KeptTwice(a: Tables, b: Tables, c: Tables)
    requires Kept(a, b) && Kept(b, c)
    ensures Kept(a, c)
  {
    forall p | 0 <= p < |a.products| ensures Evolves(a.products[p], c.products[p]) {
      assert Evolves(a.products[p], b.products[p]) && Evolves(b.products[p], c.products[p]);
    }
    forall g | g in a.gtins ensures g in c.gtins && IdentifierKept(a.gtins[g], c.gtins[g]) {
      assert g in b.gtins && IdentifierKept(a.gtins[g], b.gtins[g]);
    }
  }

  lemma CreateKeeps(t: Tables, gtin: string, product: Product, verifiedAt: Option<int>)
    requires Inv(t) && gtin !in t.gtins
    ensures Inv(Create(t, gtin, product, verifiedAt)) && Kept(t, Create(t, gtin, product, verifiedAt))
  {
    var t' := Create(t, gtin, product, verifiedAt);
    forall k | k in t'.sourceRows ensures RowInv(t', k) {
      assert RowInv(t, k);
    }
  }

  lemma MutationEvolves(p: Product, incoming: Incoming, matched: Option<Option<int>>)
    ensures Evolves(p, Mutated(p, incoming, Decide(p, incoming, matched, true)))
  {
  }

  lemma ResolveKnownKeeps(t: Tables, h: RunHandle, o: CatalogOutcome, completed: set<nat>)
    requires Inv(t) && o.gtin in t.gtins
    ensures var r := ResolveKnown(t, h, o, completed);
            r.Resolved? && Inv(r.tables) && Kept(t, r.tables) && r.product < |r.tables.products|
  {
    var r := ResolveKnown(t, h, o, completed);
    var id := t.gtins[o.gtin];
    MutationEvolves(t.products[id.product], o.product, MatchedVersion(t, h, o, id.product, completed));
    forall k | k in t.sourceRows ensures RowInv(r.tables, k) {
      assert RowInv(t, k);
    }
  }

  lemma LinkKeeps(t: Tables, h: RunHandle, o: CatalogOutcome, product: nat)
    requires Inv(t) && product < |t.products| && Link(t, h, o, product).Some?
    ensures Inv(Link(t, h, o, product).value) && Kept(t, Link(t, h, o, product).value)
  {
    var t' := Link(t, h, o, product).value;
    var key := SourceKey(h.source, o.recordId);
    forall k | k in t'.sourceRows ensures RowInv(t', k) {
      if k in t.sourceRows { assert RowInv(t, k); }
    }
  }

  lemma AttachKeeps(t: Tables, h: RunHandle, o: CatalogOutcome, product: nat)
    requires Inv(t) && product < |t.products| && Attach(t, h, o, product).Some?
    ensures Inv(Attach(t, h, o, product).value) && Kept(t, Attach(t, h, o, product).value)
  {
    LinkKeeps(t, h, o, product);
    var linked, t' := Link(t, h, o, product).value, Attach(t, h, o, product).value;
    forall k | k in t'.sourceRows ensures RowInv(t', k) {
      assert RowInv(linked, k);
    }
    assert Kept(linked, t');
    KeptTwice(t, linked, t');
  }

  lemma CatalogStepKeeps(t: Tables, h: RunHandle, completed: set<nat>, o: CatalogOutcome)
    requires Inv(t) && CatalogStep(t, h, completed, o).Some?
    ensures Inv(CatalogStep(t, h, completed, o).value) && Kept(t, CatalogStep(t, h, completed, o).value)
  {
    if o.accepted {
      var r := ResolveCatalog(t, h, o, completed);
      if o.gtin in t.gtins {
        ResolveKnownKeeps(t, h, o, completed);
      } else {
        CreateKeeps(t, o.gtin, Product(o.product.fields, Active, Some(o.product.retrievedAt)),
                    Some(o.product.retrievedAt));
      }
      if !r.review {
        AttachKeeps(r.tables, h, o, r.product);
        KeptTwice(t, r.tables, CatalogStep(t, h, completed, o).value);
      }
    }
  }

  lemma {:induction false} CatalogBatchKeeps(t: Tables, h: RunHandle, completed: set<nat>,
                                             outcomes: seq<CatalogOutcome>)
    requires Inv(t) && CatalogBatch(t, h, completed, outcomes).Some?
    ensures Inv(CatalogBatch(t, h, completed, outcomes).value) && Kept(t, CatalogBatch(t, h, completed, outcomes).value)
  {
    if outcomes != [] {
      var init, last := outcomes[..|outcomes| - 1], outcomes[|outcomes| - 1];
      CatalogBatchKeeps(t, h, completed, init);
      var mid := CatalogBatch(t, h, completed, init).value;
      CatalogStepKeeps(mid, h, completed, last);
      KeptTwice(t, mid, CatalogBatch(t, h, completed, outcomes).value);
    }
  }

  /** A product that only a price has named so far: its GTIN unverified, its name a placeholder. */
  ghost predicate IsPending(t: Tables, gtin: string) {
    && gtin in t.gtins && t.gtins[gtin].verifiedAt.None? && t.gtins[gtin].product < |t.products|
    && var p := t.products[t.gtins[gtin].product];
       && p.status.Quarantined? && p.fields.displayName == "Pending catalog match " + gtin
       && p.fields.brand.None? && p.fields.packageAmount.None? && p.fields.unitsPerPack == 1
  }

  /** Quarantined stubs are added for unknown GTINs, and nothing that is there is altered. */
  ghost predicate OnlyAddsStubs(t: Tables, t': Tables) {
    && t.products <= t'.products
    && (forall p | |t.products| <= p < |t'.products| :: t'.products[p].status.Quarantined?)
    && (forall g | g in t.gtins :: g in t'.gtins && t'.gtins[g] == t.gtins[g])
    && (forall g | g in t'.gtins && g !in t.gtins :: IsPending(t', g))
    && t'.sourceIds == t.sourceIds && t'.sourceRows == t.sourceRows && t'.observations == t.observations
  }

  lemma AddsStubsTwice(a: Tables, b: Tables, c: Tables)
    requires OnlyAddsStubs(a, b) && OnlyAddsStubs(b, c)
    ensures OnlyAddsStubs(a, c)
  {
    forall p | |a.products| <= p < |c.products| ensures c.products[p].status.Quarantined? {
      if p < |b.products| { assert c.products[p] == b.products[p]; }
    }
    forall g | g in c.gtins && g !in a.gtins ensures IsPending(c, g) {
      if g in b.gtins { assert IsPending(b, g) && c.gtins[g] == b.gtins[g]; }
    }
  }

  lemma SameIsKept(t: Tables)
    ensures Kept(t, t) && OnlyAddsStubs(t, t)
  {
  }

  lemma PriceStepOnlyAdds(t: Tables, o: PriceOutcome)
    requires Inv(t) && ResolvePrice(t, o).Some?
    ensures var t' := ResolvePrice(t, o).value;
            && Inv(t') && Kept(t, t') && OnlyAddsStubs(t, t')
            && t.gtins.Keys <= t'.gtins.Keys && (o.subject.Some? ==> o.subject.value in t'.gtins)
  {
    if o.subject.Some? && o.subject.value !in t.gtins {
      CreateKeeps(t, o.subject.value, Stub(o.subject.value), None);
      hide Inv, Kept;
    }
  }

  /** Price batches add quarantined stubs for unknown GTINs and alter nothing that is there. */
  lemma {:induction false} PriceBatchesOnlyAdd(t: Tables, outcomes: seq<PriceOutcome>)
    requires Inv(t) && PriceBatch(t, outcomes).Some?
    ensures var t' := PriceBatch(t, outcomes).value;
            && Inv(t') && Kept(t, t') && OnlyAddsStubs(t, t')
            && (forall i | 0 <= i < |outcomes| && outcomes[i].subject.Some? :: outcomes[i].subject.value in t'.gtins)
  {
    hide Inv, Kept, ResolvePrice, OnlyAddsStubs;
    if outcomes == [] {
      SameIsKept(t);
    } else {
      var init, last := outcomes[..|outcomes| - 1], outcomes[|outcomes| - 1];
      PriceBatchesOnlyAdd(t, init);
      var mid, t' := PriceBatch(t, init).value, PriceBatch(t, outcomes).value;
      PriceStepOnlyAdds(mid, last);
      AddsStubsTwice(t, mid, t');
      KeptTwice(t, mid, t');
      assert forall i | 0 <= i < |init| :: outcomes[i] == init[i];
    }
  }

  lemma NextKeeps(t: Tables, b: Batch)
    requires Inv(t)
    ensures Inv(Next(t, b)) && Kept(t, Next(t, b))
  {
    if !b.interrupted && b.approved {
      match b
      case CatalogWrite(h, completed, outcomes, _, _) =>
        if CatalogBatch(t, h, completed, outcomes).Some? { CatalogBatchKeeps(t, h, completed, outcomes); }
      case PriceWrite(outcomes, _, _) =>
        if PriceBatch(t, outcomes).Some? { PriceBatchesOnlyAdd(t, outcomes); }
    }
  }

  /**
   Over every sequence of batches: a GTIN or a (source, record id) once bound keeps
   its product, no two GTINs share one, retired products never change, and a status
   moves only from quarantined to active.
   */
  lemma {:induction false} IdentityIsStable(t: Tables, batches: seq<Batch>)
    requires Inv(t)
    ensures Inv(Perform(t, batches)) && Kept(t, Perform(t, batches))
  {
    if batches != [] {
      var init := batches[..|batches| - 1];
      IdentityIsStable(t, init);
      NextKeeps(Perform(t, init), batches[|batches| - 1]);
      KeptTwice(t, Perform(t, init), Perform(t, batches));
    }
  }

  // ----- Why an active product changes

  /** `o` is the source's own linked record of product `p`, and newer than its last completed version. */
  ghost predicate CorrectsFromItsOwnRecord(t: Tables, h: RunHandle, completed: set<nat>, o: CatalogOutcome, p: nat) {
    var key := SourceKey(h.source, o.recordId);
    && o.accepted
    && o.gtin in t.gtins && t.gtins[o.gtin].product == p
    && key in t.sourceIds && t.sourceIds[key] == p
    && o.product.sourceUpdatedAt.Some?
    && var prior := LatestCompleted(t.observations, h, o.recordId, p, completed);
       prior.Some? && prior.value.sourceUpdatedAt.Some? ==>
         prior.value.sourceUpdatedAt.value < o.product.sourceUpdatedAt.value
  }

  lemma StepChangesActiveOnlyFromItsOwnRecord(t: Tables, h: RunHandle, completed: set<nat>, o: CatalogOutcome, p: nat)
    requires Inv(t) && CatalogStep(t, h, completed, o).Some? && p < |t.products| && t.products[p].status.Active?
    requires p < |CatalogStep(t, h, completed, o).value.products|
    requires CatalogStep(t, h, completed, o).value.products[p] != t.products[p]
    ensures CorrectsFromItsOwnRecord(t, h, completed, o, p)
  {
    var key := SourceKey(h.source, o.recordId);
    if key in t.sourceRows { assert RowInv(t, key); }
  }

  /** If a batch changes an active product, some record of the batch corrects it from its own linked, newer version. */
  lemma {:induction false} ActiveProductsChangeOnlyFromTheirOwnRecord(t: Tables, h: RunHandle, completed: set<nat>,
                                                                     outcomes: seq<CatalogOutcome>, p: nat)
    returns (i: nat)
    requires Inv(t) && p < |t.products| && t.products[p].status.Active?
    requires CatalogBatch(t, h, completed, outcomes).Some?
    requires p < |CatalogBatch(t, h, completed, outcomes).value.products|
    requires CatalogBatch(t, h, completed, outcomes).value.products[p] != t.products[p]
    ensures i < |outcomes| && CatalogBatch(t, h, completed, outcomes[..i]).Some?
    ensures CorrectsFromItsOwnRecord(CatalogBatch(t, h, completed, outcomes[..i]).value, h, completed, outcomes[i], p)
  {
    var last := |outcomes| - 1;
    var init := outcomes[..last];
    var mid := CatalogBatch(t, h, completed, init).value;
    CatalogBatchKeeps(t, h, completed, init);
    assert Evolves(t.products[p], mid.products[p]);
    if mid.products[p] != t.products[p] {
      i := ActiveProductsChangeOnlyFromTheirOwnRecord(t, h, completed, init, p);
      assert init[..i] == outcomes[..i];
    } else {
      i := last;
      StepChangesActiveOnlyFromItsOwnRecord(mid, h, completed, outcomes[last], p);
    }
  }

  // ----- What a record does

  /** A record goes to review exactly when its product is retired, or active with other fields it may not correct. */
  lemma ReviewedIff(t: Tables, h: RunHandle, o: CatalogOutcome, completed: set<nat>)
    requires Inv(t) && o.validGtin
    ensures var r := ResolveCatalog(t, h, o, completed);
            && r.Resolved?
            && (r.review ==> r.tables == t)
            && (r.review <==>
                  && o.gtin in t.gtins
                  && var p := t.gtins[o.gtin].product;
                     || t.products[p].status.Retired?
                     || (t.products[p].status.Active? && t.products[p].fields != o.product.fields
                         && !(KeyOf(h, o) in t.sourceRows
                              && CorrectsFromItsOwnRecord(t, h, completed, o.(accepted := true), p))))
  {
    if o.gtin in t.gtins {
      ResolveKnownKeeps(t, h, o, completed);
      if KeyOf(h, o) in t.sourceRows { assert RowInv(t, KeyOf(h, o)); }
    }
  }

  function KeyOf(h: RunHandle, o: CatalogOutcome): SourceKey { SourceKey(h.source, o.recordId) }

  /** The observation of the record: its run, source, id, product, time and version. */
  function ObservationOf(h: RunHandle, o: CatalogOutcome, product: nat): Observation {
    Observation(h.id, h.source, o.recordId, product, o.product.retrievedAt, o.product.sourceUpdatedAt)
  }

  predicate SeenInRun(t: Tables, h: RunHandle, o: CatalogOutcome) {
    exists obs :: obs in t.observations && obs.run == h.id && obs.recordId == o.recordId
  }

  function SightingOf(o: CatalogOutcome, product: nat): Rows.Sighting<SourceFact> {
    Rows.Sighting(o.product.retrievedAt, o.hash, SourceFact(product, o.product.fields))
  }

  /** Active with the record's fields; touched only if it was not so already. */
  ghost predicate IsShown(t: Tables, t': Tables, o: CatalogOutcome, p: nat) {
    && p < |t'.products| && t'.products[p].status.Active? && t'.products[p].fields == o.product.fields
    && if p < |t.products| && t.products[p].status.Active? && t.products[p].fields == o.product.fields
       then t'.products[p] == t.products[p]
       else t'.products[p].updatedAt == Some(o.product.retrievedAt)
  }

  /** The first verification of a GTIN stays. */
  function VerifiedAt(t: Tables, o: CatalogOutcome): int {
    if o.gtin in t.gtins && t.gtins[o.gtin].verifiedAt.Some? then t.gtins[o.gtin].verifiedAt.value
    else o.product.retrievedAt
  }

  /**
   `t'` is `t` with the record in effect: its product is active with its fields, its GTIN
   verified, its key bound, its sighting in the source's row, and its observation kept
   unless its run has one of the record already.
   */
  ghost predicate InEffect(t: Tables, t': Tables, h: RunHandle, o: CatalogOutcome) {
    && o.gtin in t'.gtins
    && var id, key := t'.gtins[o.gtin], KeyOf(h, o);
       && IsShown(t, t', o, id.product) && id.verifiedAt == Some(VerifiedAt(t, o))
       && key in t'.sourceIds && t'.sourceIds[key] == id.product
       && key in t'.sourceRows
       && t'.sourceRows[key] == (if key in t.sourceRows then Rows.Updated(t.sourceRows[key], SightingOf(o, id.product))
                                 else Rows.Inserted(SightingOf(o, id.product)))
       && t'.observations ==
            if SeenInRun(t, h, o) then t.observations else t.observations + [ObservationOf(h, o, id.product)]
  }

  /** Nothing else changes. */
  ghost predicate ChangesOnly(t: Tables, t': Tables, h: RunHandle, o: CatalogOutcome, product: nat) {
    && |t.products| <= |t'.products| <= (if product == |t.products| then |t.products| + 1 else |t.products|)
    && (forall p | 0 <= p < |t.products| && p != product :: t'.products[p] == t.products[p])
    && t'.gtins.Keys == t.gtins.Keys + {o.gtin} && (forall g | g in t.gtins && g != o.gtin :: t'.gtins[g] == t.gtins[g])
    && t'.sourceIds.Keys == t.sourceIds.Keys + {KeyOf(h, o)}
    && (forall k | k in t.sourceIds && k != KeyOf(h, o) :: t'.sourceIds[k] == t.sourceIds[k])
    && t'.sourceRows.Keys == t.sourceRows.Keys + {KeyOf(h, o)}
    && (forall k | k in t.sourceRows && k != KeyOf(h, o) :: t'.sourceRows[k] == t.sourceRows[k])
  }

  lemma ResolvedIsShown(t: Tables, h: RunHandle, o: CatalogOutcome, completed: set<nat>)
    requires Inv(t) && ResolveCatalog(t, h, o, completed).Resolved? && !ResolveCatalog(t, h, o, completed).review
    ensures var r := ResolveCatalog(t, h, o, completed);
            var t' := r.tables;
            && o.gtin in t'.gtins && t'.gtins[o.gtin] == Identifier(r.product, Some(VerifiedAt(t, o)))
            && IsShown(t, t', o, r.product)
            && t'.sourceIds == t.sourceIds && t'.sourceRows == t.sourceRows && t'.observations == t.observations
  {
    hide LatestCompleted;
  }

  lemma ResolvedIsLocal(t: Tables, h: RunHandle, o: CatalogOutcome, completed: set<nat>)
    requires Inv(t) && ResolveCatalog(t, h, o, completed).Resolved?
    ensures var r := ResolveCatalog(t, h, o, completed);
            var t' := r.tables;
            && |t.products| <= |t'.products| <= (if r.product == |t.products| then |t.products| + 1 else |t.products|)
            && (forall p | 0 <= p < |t.products| && p != r.product :: t'.products[p] == t.products[p])
            && t'.gtins.Keys == t.gtins.Keys + {o.gtin}
            && (forall g | g in t.gtins && g != o.gtin :: t'.gtins[g] == t.gtins[g])
            && t'.sourceIds == t.sourceIds && t'.sourceRows == t.sourceRows
  {
    hide LatestCompleted;
  }

  lemma AttachedIsBound(t: Tables, h: RunHandle, o: CatalogOutcome, product: nat)
    requires Attach(t, h, o, product).Some?
    ensures var t', key := Attach(t, h, o, product).value, KeyOf(h, o);
            && t'.products == t.products && t'.gtins == t.gtins
            && t'.sourceIds == t.sourceIds[key := product]
            && key in t'.sourceRows
            && t'.sourceRows == t.sourceRows[key := t'.sourceRows[key]]
            && t'.sourceRows[key] ==
               (if key in t.sourceRows then Rows.Updated(t.sourceRows[key], SightingOf(o, product))
                else Rows.Inserted(SightingOf(o, product)))
            && t'.observations ==
                 if SeenInRun(t, h, o) then t.observations else t.observations + [ObservationOf(h, o, product)]
  {
    hide Rows.Updated, Rows.Inserted;
    var linked := Link(t, h, o, product).value;
    assert linked.observations == t.observations;
    assert SeenInRun(linked, h, o) == SeenInRun(t, h, o);
  }

  /** An accepted record that is neither reviewed nor in conflict takes effect as a whole, and nothing else changes. */
  lemma UnreviewedRecordsTakeEffect(t: Tables, h: RunHandle, completed: set<nat>, o: CatalogOutcome)
    requires Inv(t) && o.accepted && CatalogStep(t, h, completed, o).Some?
    requires !ResolveCatalog(t, h, o, completed).review
    ensures var t' := CatalogStep(t, h, completed, o).value;
            InEffect(t, t', h, o) && ChangesOnly(t, t', h, o, t'.gtins[o.gtin].product)
  {
    var r := ResolveCatalog(t, h, o, completed);
    ResolvedIsShown(t, h, o, completed);
    ResolvedIsLocal(t, h, o, completed);
    AttachedIsBound(r.tables, h, o, r.product);
    assert SeenInRun(r.tables, h, o) == SeenInRun(t, h, o);
    hide ResolveCatalog, Attach, Inv, SeenInRun, Rows.Updated, Rows.Inserted;
  }

  // ----- When a batch commits

  /** The product a record resolves to. */
  function Subject(t: Tables, o: CatalogOutcome): nat {
    if o.gtin in t.gtins then t.gtins[o.gtin].product else |t.products|
  }

  /** One record throws only for an invalid GTIN or a key of another product; a reviewed one never does. */
  lemma StepSucceedsIff(t: Tables, h: RunHandle, completed: set<nat>, o: CatalogOutcome)
    requires Inv(t)
    ensures CatalogStep(t, h, completed, o).Some? <==>
              (o.accepted ==>
                && o.validGtin
                && (ResolveCatalog(t, h, o, completed).review
                    || (KeyOf(h, o) in t.sourceIds ==> t.sourceIds[KeyOf(h, o)] == Subject(t, o))))
    ensures !o.accepted || (o.validGtin && ResolveCatalog(t, h, o, completed).review) ==>
              CatalogStep(t, h, completed, o) == Some(t)
  {
    if o.validGtin { ReviewedIff(t, h, o, completed); }
    hide LatestCompleted, MatchedVersion, Decide;
  }

  /** A batch commits exactly when its records take effect one after the other. */
  lemma {:induction false} BatchIsItsSteps(t: Tables, h: RunHandle, completed: set<nat>, outcomes: seq<CatalogOutcome>,
                                           i: nat)
    requires i < |outcomes| && CatalogBatch(t, h, completed, outcomes).Some?
    ensures CatalogBatch(t, h, completed, outcomes[..0]) == Some(t)
    ensures CatalogBatch(t, h, completed, outcomes[..i]).Some?
    ensures CatalogBatch(t, h, completed, outcomes[..i + 1])
            == CatalogStep(CatalogBatch(t, h, completed, outcomes[..i]).value, h, completed, outcomes[i])
    decreases |outcomes|
  {
    hide CatalogStep;
    var init := outcomes[..|outcomes| - 1];
    if i == |outcomes| - 1 {
      assert outcomes[..i + 1] == outcomes;
    } else {
      BatchIsItsSteps(t, h, completed, init, i);
      assert init[..i] == outcomes[..i] && init[..i + 1] == outcomes[..i + 1];
    }
  }

  lemma {:induction false} BatchFailsAtAStep(t: Tables, h: RunHandle, completed: set<nat>,
                                             outcomes: seq<CatalogOutcome>) returns (i: nat)
    requires CatalogBatch(t, h, completed, outcomes).None?
    ensures i < |outcomes| && CatalogBatch(t, h, completed, outcomes[..i]).Some?
    ensures CatalogStep(CatalogBatch(t, h, completed, outcomes[..i]).value, h, completed, outcomes[i]).None?
    decreases |outcomes|
  {
    hide CatalogStep;
    var last := |outcomes| - 1;
    if CatalogBatch(t, h, completed, outcomes[..last]).None? {
      i := BatchFailsAtAStep(t, h, completed, outcomes[..last]);
      assert outcomes[..last][..i] == outcomes[..i];
    } else {
      i := last;
    }
  }

  /** A price batch commits exactly when every GTIN it names is valid. */
  lemma {:induction false} PriceBatchSucceedsIff(t: Tables, outcomes: seq<PriceOutcome>)
    ensures PriceBatch(t, outcomes).Some? <==>
              forall i | 0 <= i < |outcomes| :: outcomes[i].subject.Some? ==> outcomes[i].validGtin
  {
    if outcomes != [] {
      var init := outcomes[..|outcomes| - 1];
      PriceBatchSucceedsIff(t, init);
      assert forall i | 0 <= i < |init| :: init[i] == outcomes[i];
    }
  }

  // ----- The repository object

  class ProductRepository {
    var products: seq<Product>
    var gtins: map<string, Identifier>
    var sourceIds: map<SourceKey, nat>
    var sourceRows: map<SourceKey, Rows.Row<SourceFact>>
    var observations: seq<Observation>

    function Contents(): Tables
      reads this
    {
      Tables(products, gtins, sourceIds, sourceRows, observations)
    }

    constructor ()
      ensures Contents() == Tables([], map[], map[], map[], [])
      ensures Inv(Contents())
    {
      products, gtins, sourceIds, sourceRows, observations := [], map[], map[], map[], [];
    }

    method Restore(t: Tables)
      modifies this
      ensures Contents() == t
    {
      products, gtins, sourceIds, sourceRows, observations := t.products, t.gtins, t.sourceIds, t.sourceRows,
        t.observations;
    }

    method ResolveProductByGtin(h: RunHandle, o: CatalogOutcome, completed: set<nat>)
      returns (ok: bool, product: nat, review: bool)
      modifies this`products, this`gtins
      ensures var r := ResolveCatalog(old(Contents()), h, o, completed);
              && ok == r.Resolved?
              && (ok ==> Contents() == r.tables && product == r.product && review == r.review)
              && (!ok ==> Contents() == old(Contents()))
    {
      product, review := 0, false;
      if !o.validGtin {
        return false, 0, false;
      }
      if o.gtin !in gtins {
        product := |products|;
        products := products + [Product(o.product.fields, Active, Some(o.product.retrievedAt))];
        gtins := gtins[o.gtin := Identifier(product, Some(o.product.retrievedAt))];
        return true, product, false;
      }
      var id := gtins[o.gtin];
      if id.product >= |products| {
        return false, 0, false;
      }
      var decision := Decide(products[id.product], o.product, MatchedVersion(Contents(), h, o, id.product, completed),
                             true);
      if decision.Review? {
        return true, id.product, true;
      }
      products := products[id.product := Mutated(products[id.product], o.product, decision)];
      if id.verifiedAt.None? {
        gtins := gtins[o.gtin := id.(verifiedAt := Some(o.product.retrievedAt))];
      }
      assert gtins == old(gtins)[o.gtin := gtins[o.gtin]];
      return true, id.product, false;
    }

    method LinkSourceProduct(h: RunHandle, o: CatalogOutcome, product: nat) returns (ok: bool)
      modifies this`sourceIds, this`sourceRows
      ensures ok == Link(old(Contents()), h, o, product).Some?
      ensures ok ==> Contents() == Link(old(Contents()), h, o, product).value
    {
      var key := SourceKey(h.source, o.recordId);
      if key !in sourceIds {
        sourceIds := sourceIds[key := product];
      }
      if sourceIds[key] != product {
        return false;
      }
      assert sourceIds == old(sourceIds)[key := product];
      var sighting := Rows.Sighting(o.product.retrievedAt, o.hash, SourceFact(product, o.product.fields));
      var row := if key in sourceRows then Rows.Updated(sourceRows[key], sighting) else Rows.Inserted(sighting);
      sourceRows := sourceRows[key := row];
      return true;
    }

    method AppendCatalogObservation(h: RunHandle, o: CatalogOutcome, product: nat)
      modifies this`observations
      ensures Contents() == Observe(old(Contents()), h, o, product)
    {
      if !exists obs :: obs in observations && obs.run == h.id && obs.recordId == o.recordId {
        observations := observations +
          [Observation(h.id, h.source, o.recordId, product, o.product.retrievedAt, o.product.sourceUpdatedAt)];
      }
    }

    method PersistOne(h: RunHandle, completed: set<nat>, o: CatalogOutcome) returns (ok: bool)
      modifies this
      ensures ok == CatalogStep(old(Contents()), h, completed, o).Some?
      ensures ok ==> Contents() == CatalogStep(old(Contents()), h, completed, o).value
    {
      if !o.accepted {
        return true;
      }
      var resolved, product, review := ResolveProductByGtin(h, o, completed);
      if !resolved || review {
        return resolved;
      }
      ok := LinkSourceProduct(h, o, product);
      if ok {
        AppendCatalogObservation(h, o, product);
      }
    }

    /** One outcome after the other; the first error restores the tables. */
    method PersistCatalogOutcomes(h: RunHandle, completed: set<nat>, outcomes: seq<CatalogOutcome>, approved: bool,
                                  interrupted: bool)
      modifies this
      ensures Contents() == Next(old(Contents()), CatalogWrite(h, completed, outcomes, approved, interrupted))
    {
      if interrupted || !approved {
        return;
      }
      var before := Contents();
      for i := 0 to |outcomes|
        invariant CatalogBatch(before, h, completed, outcomes[..i]) == Some(Contents())
      {
        assert outcomes[..i + 1][..i] == outcomes[..i];
        var ok := PersistOne(h, completed, outcomes[i]);
        if !ok {
          ThrowsOnce(before, h, completed, outcomes, i);
          Restore(before);
          return;
        }
      }
      assert outcomes[..|outcomes|] == outcomes;
    }
  }

  /** Once a prefix of a batch throws, the batch does. */
  lemma {:induction false} ThrowsOnce(t: Tables, h: RunHandle, completed: set<nat>, outcomes: seq<CatalogOutcome>,
                                      i: nat)
    requires i < |outcomes| && CatalogBatch(t, h, completed, outcomes[..i + 1]).None?
    ensures CatalogBatch(t, h, completed, outcomes).None?
  {
    if i + 1 < |outcomes| {
      var init := outcomes[..|outcomes| - 1];
      assert init[..i + 1] == outcomes[..i + 1];
      ThrowsOnce(t, h, completed, init, i);
    } else {
      assert outcomes[..i + 1] == outcomes;
    }
  }
}
