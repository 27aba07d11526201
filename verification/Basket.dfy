/**
 The browser basket and its edits (apps/web/lib/browser-basket.ts). A generic rule's
 matching products are given by `fits`, an arbitrary relation between rules and
 products; an exact rule matches exactly the stored products with its EAN.
 */
module Basket {
  import opened Wrappers
  import opened Collections
  import BasketQuantity

  const BASKET_NEEDS_MAX := 50
  const BASKET_PRODUCTS_MAX := 200
  const BRANDS_MAX := 20
  const BRAND_LENGTH_MAX := 120
  const EXPLANATION_LENGTH_MAX := 500

  datatype Need = Need(id: string, ruleId: string, detail: string)

  /** A generic rule with brands is "constrained", one without is "flexible". */
  datatype Rule =
    | Exact(id: string, ean: string)
    | Generic(id: string, family: Option<string>, brands: Option<seq<string>>)

  /** `details` are the optional fields that are present. */
  datatype Product = Product(ean: string, name: string, details: map<string, string>)

  datatype Confirmation = Confirmation(ruleId: string, family: string, brands: Option<seq<string>>, active: bool)

  datatype Basket = Basket(needs: seq<Need>, rules: seq<Rule>, products: seq<Product>, confirmations: seq<Confirmation>)

  // ----- Filters and distinctness

  function Keep<T>(s: seq<T>, p: T -> bool): seq<T> {
    if s == [] then [] else (if p(s[0]) then [s[0]] else []) + Keep(s[1..], p)
  }

  ghost predicate DistinctBy<T, K>(s: seq<T>, key: T -> K) {
    forall i, j | 0 <= i < j < |s| :: key(s[i]) != key(s[j])
  }

  lemma {:induction false} KeepMembers<T(!new)>(s: seq<T>, p: T -> bool)
    ensures forall x :: x in Keep(s, p) <==> x in s && p(x)
    ensures |Keep(s, p)| <= |s|
  {
    if s != [] {
      KeepMembers(s[1..], p);
      assert s == [s[0]] + s[1..];
    }
  }

  lemma {:induction false} KeepDistinct<T(!new), K>(s: seq<T>, p: T -> bool, key: T -> K)
    requires DistinctBy(s, key)
    ensures DistinctBy(Keep(s, p), key)
  {
    if s != [] {
      KeepDistinct(s[1..], p, key);
      KeepMembers(s[1..], p);
      var kept := Keep(s[1..], p);
      forall j | 0 <= j < |kept| ensures key(kept[j]) != key(s[0]) {
        assert kept[j] in s[1..];
      }
    }
  }

  lemma {:induction false} KeepAll<T(!new)>(s: seq<T>, p: T -> bool)
    requires forall x | x in s :: p(x)
    ensures Keep(s, p) == s
  {
    if s != [] {
      assert s == [s[0]] + s[1..];
      KeepAll(s[1..], p);
    }
  }

  lemma {:induction false} KeepConcat<T>(a: seq<T>, b: seq<T>, p: T -> bool)
    ensures Keep(a + b, p) == Keep(a, p) + Keep(b, p)
  {
    if a == [] {
      assert a + b == b;
    } else {
      var first := if p(a[0]) then [a[0]] else [];
      assert (a + b)[0] == a[0] && (a + b)[1..] == a[1..] + b;
      calc {
        Keep(a + b, p);
        first + Keep(a[1..] + b, p);
        { KeepConcat(a[1..], b, p); }
        first + (Keep(a[1..], p) + Keep(b, p));
        (first + Keep(a[1..], p)) + Keep(b, p);
        Keep(a, p) + Keep(b, p);
      }
    }
  }

  const NEED_ID := (n: Need) => n.id
  const NEED_RULE := (n: Need) => n.ruleId
  const RULE_ID := (r: Rule) => r.id
  const CONFIRMED_RULE := (c: Confirmation) => c.ruleId

  // ----- Validity

  ghost predicate HasRule(rules: seq<Rule>, id: string) { exists r :: r in rules && r.id == id }

  ghost predicate HasProduct(products: seq<Product>, ean: string) { exists p :: p in products && p.ean == ean }

  ghost predicate IsReferenced(needs: seq<Need>, id: string) { exists n :: n in needs && n.ruleId == id }

  /** Ids are unique, every rule belongs to exactly one need and an exact rule's product is stored. */
  ghost predicate Relational(b: Basket) {
    && DistinctBy(b.needs, NEED_ID)
    && DistinctBy(b.needs, NEED_RULE)
    && DistinctBy(b.rules, RULE_ID)
    && (forall n | n in b.needs :: HasRule(b.rules, n.ruleId))
    && (forall r | r in b.rules :: IsReferenced(b.needs, r.id))
    && (forall r | r in b.rules && r.Exact? :: HasProduct(b.products, r.ean))
  }

  /** The confirmation describes this rule. */
  predicate Confirms(c: Confirmation, r: Rule) {
    r.Generic? && r.id == c.ruleId && r.family == Some(c.family) && c.active
    && (if r.brands.None? then c.brands.None?
        else r.brands.value == (if c.brands.Some? then c.brands.value else []))
  }

  /** Every confirmation describes one live generic rule, and no rule has two. */
  ghost predicate Confirmed(b: Basket) {
    && DistinctBy(b.confirmations, CONFIRMED_RULE)
    && (forall c | c in b.confirmations :: exists r :: r in b.rules && Confirms(c, r))
  }

  predicate WithinBounds(b: Basket) {
    |b.needs| <= BASKET_NEEDS_MAX && |b.rules| <= BASKET_NEEDS_MAX && |b.products| <= BASKET_PRODUCTS_MAX
    && |b.confirmations| <= BASKET_NEEDS_MAX
  }

  ghost predicate Sound(b: Basket) { Relational(b) && Confirmed(b) }

  ghost predicate Valid(b: Basket) { Sound(b) && WithinBounds(b) }

  // ----- Edits

  function Matching(fits: (Rule, Product) -> bool, r: Rule, products: seq<Product>): set<string> {
    set p | p in products && (if r.Exact? then p.ean == r.ean else fits(r, p)) :: p.ean
  }

  function FindProduct(products: seq<Product>, ean: string): (r: Option<Product>)
    ensures r.Some? ==> r.value in products && r.value.ean == ean
    ensures r.None? ==> forall p | p in products :: p.ean != ean
  {
    if products == [] then None
    else if products[0].ean == ean then Some(products[0])
    else FindProduct(products[1..], ean)
  }

  /** The fields of a product over those stored for its EAN. */
  function Merged(products: seq<Product>, p: Product): Product {
    var stored := FindProduct(products, p.ean);
    if stored.Some? then Product(p.ean, p.name, stored.value.details + p.details) else p
  }

  /** Setting a key of an insertion-ordered map: a key that is present keeps its place. */
  function Put(kept: seq<Product>, p: Product): seq<Product> {
    if kept == [] then [p]
    else if kept[0].ean == p.ean then [p] + kept[1..]
    else [kept[0]] + Put(kept[1..], p)
  }

  /** The values of the map by EAN of a list: the last product of each EAN, in the place of its first. */
  function ByEan(products: seq<Product>): seq<Product> {
    if products == [] then [] else Put(ByEan(products[..|products| - 1]), products[|products| - 1])
  }

  /** The stored products with one more. */
  function PutProduct(products: seq<Product>, p: Product): seq<Product> {
    ByEan(products + [Merged(products, p)])
  }

  /** The EANs that some need's rule still matches. */
  function ReferencedEans(fits: (Rule, Product) -> bool, needs: seq<Need>, rules: seq<Rule>,
                          products: seq<Product>): set<string> {
    set n, r, ean | n in needs && r in rules && r.id == n.ruleId && ean in Matching(fits, r, products) :: ean
  }

  function AddExact(b: Basket, p: Product, needId: string, ruleId: string): Basket {
    if |b.needs| >= BASKET_NEEDS_MAX || Exists(b.rules, (r: Rule) => r.Exact? && r.ean == p.ean) then b
    else Basket(b.needs + [Need(needId, ruleId, p.name)], b.rules + [Exact(ruleId, p.ean)],
                PutProduct(b.products, p), b.confirmations)
  }

  predicate Exists<T>(s: seq<T>, p: T -> bool) {
    s != [] && (p(s[0]) || Exists(s[1..], p))
  }

  /**
   `parsed`: the family and its confirmation pass their schemas, and the brands are
   normalized and sorted. `measured`: the unit is grams or millilitres.
   */
  datatype FamilyInput = FamilyInput(family: string, brands: Option<seq<string>>, active: bool, parsed: bool,
                                     candidateCount: int, quantity: int, measured: bool)

  predicate BrandsAreCanonical(brands: seq<string>) {
    && 1 <= |brands| <= BRANDS_MAX
    && (forall brand | brand in brands :: 1 <= |brand| <= BRAND_LENGTH_MAX)
    && (forall i, j | 0 <= i < j < |brands| :: brands[i] != brands[j])
  }

  /** What the edit itself demands of its input. */
  predicate IsAcceptable(i: FamilyInput) {
    && i.parsed
    && (i.brands.Some? ==> BrandsAreCanonical(i.brands.value))
    && 1 <= i.candidateCount <= 50
    && BasketQuantity.BASKET_QUANTITY_MIN <= i.quantity
    && i.quantity <= (if i.measured then BasketQuantity.BASKET_MEASURE_QUANTITY_MAX
                      else BasketQuantity.BASKET_COUNT_QUANTITY_MAX)
  }

  function JoinedBrands(brands: seq<string>): string {
    if brands == [] then "" else if |brands| == 1 then brands[0] else brands[0] + " eller " + JoinedBrands(brands[1..])
  }

  /** The text the new rule is explained with. */
  function Explanation(brands: Option<seq<string>>): string {
    if brands.None? then "Gjennomg\U{e5}tt varetype, valgfritt merke"
    else "Gjennomg\U{e5}tt varetype: " + JoinedBrands(brands.value)
  }

  /** The basket before its final validation. */
  function FamilyCandidate(b: Basket, i: FamilyInput, needId: string, ruleId: string): Basket {
    Basket(b.needs + [Need(needId, ruleId, i.family)], b.rules + [Generic(ruleId, Some(i.family), i.brands)],
           b.products, b.confirmations + [Confirmation(ruleId, i.family, i.brands, i.active)])
  }

  predicate HasFamily(b: Basket, family: string) {
    Exists(b.rules, (r: Rule) => r.Generic? && r.family == Some(family))
  }

  /** The edit throws when its input is not acceptable or its result does not pass the basket's schema. */
  ghost function AddFamily(b: Basket, i: FamilyInput, needId: string, ruleId: string): Option<Basket> {
    if |b.needs| >= BASKET_NEEDS_MAX || HasFamily(b, i.family) then Some(b)
    else
      var candidate := FamilyCandidate(b, i, needId, ruleId);
      if IsAcceptable(i) && |Explanation(i.brands)| <= EXPLANATION_LENGTH_MAX && Valid(candidate) then Some(candidate)
      else None
  }

  function MapRules(rules: seq<Rule>, id: string, r: Rule): seq<Rule> {
    seq(|rules|, i requires 0 <= i < |rules| => if rules[i].id == id then r else rules[i])
  }

  function FindNeed(needs: seq<Need>, id: string): (r: Option<Need>)
    ensures r.Some? ==> r.value in needs && r.value.id == id
    ensures r.None? ==> forall n | n in needs :: n.id != id
  {
    if needs == [] then None else if needs[0].id == id then Some(needs[0]) else FindNeed(needs[1..], id)
  }

  function FindRule(rules: seq<Rule>, id: string): (r: Option<Rule>)
    ensures r.Some? ==> r.value in rules && r.value.id == id
    ensures r.None? ==> forall n | n in rules :: n.id != id
  {
    if rules == [] then None else if rules[0].id == id then Some(rules[0]) else FindRule(rules[1..], id)
  }

  function ExactCandidate(fits: (Rule, Product) -> bool, b: Basket, ruleId: string, p: Product): Basket {
    var rules := MapRules(b.rules, ruleId, Exact(ruleId, p.ean));
    var products := PutProduct(b.products, p);
    var referenced := ReferencedEans(fits, b.needs, rules, products);
    Basket(b.needs, rules, Keep(products, (q: Product) => q.ean in referenced),
           Keep(b.confirmations, (c: Confirmation) => c.ruleId != ruleId))
  }

  ghost function SetExact(fits: (Rule, Product) -> bool, b: Basket, needId: string, p: Product): Basket {
    var need := FindNeed(b.needs, needId);
    if need.None? then b
    else
      var rule := FindRule(b.rules, need.value.ruleId);
      if rule.None? || (rule.value.Exact? && rule.value.ean == p.ean) then b
      else
        var candidate := ExactCandidate(fits, b, rule.value.id, p);
        if Valid(candidate) then candidate else b
  }

  function Remove(fits: (Rule, Product) -> bool, b: Basket, needId: string): Basket {
    var needs := Keep(b.needs, (n: Need) => n.id != needId);
    var live := set n | n in needs :: n.ruleId;
    var rules := Keep(b.rules, (r: Rule) => r.id in live);
    var referenced := ReferencedEans(fits, needs, rules, b.products);
    Basket(needs, rules, Keep(b.products, (p: Product) => p.ean in referenced),
           Keep(b.confirmations, (c: Confirmation) => c.ruleId in live))
  }

  // ----- Products

  const PRODUCT_EAN := (p: Product) => p.ean

  ghost function EansOf(products: seq<Product>): set<string> { KeysOf(products, PRODUCT_EAN) }

  lemma {:induction false} PutMembers(kept: seq<Product>, p: Product)
    requires DistinctBy(kept, PRODUCT_EAN)
    ensures forall q :: q in Put(kept, p) <==> q == p || (q in kept && q.ean != p.ean)
    ensures DistinctBy(Put(kept, p), PRODUCT_EAN)
  {
    if kept != [] {
      var rest := kept[1..];
      assert kept == [kept[0]] + rest;
      assert forall q | q in rest :: PRODUCT_EAN(q) != PRODUCT_EAN(kept[0]) by {
        forall q | q in rest ensures PRODUCT_EAN(q) != PRODUCT_EAN(kept[0]) {
          var i :| 0 <= i < |rest| && rest[i] == q;
          assert kept[i + 1] == q;
        }
      }
      assert DistinctBy(rest, PRODUCT_EAN) by {
        assert forall i | 0 <= i < |rest| :: rest[i] == kept[i + 1];
      }
      if kept[0].ean == p.ean {
        DistinctPrepend(p, rest);
      } else {
        PutMembers(rest, p);
        DistinctPrepend(kept[0], Put(rest, p));
      }
    }
  }

  lemma DistinctPrepend(p: Product, rest: seq<Product>)
    requires DistinctBy(rest, PRODUCT_EAN) && forall q | q in rest :: q.ean != p.ean
    ensures DistinctBy([p] + rest, PRODUCT_EAN)
  {
    var all := [p] + rest;
    forall i, j | 0 <= i < j < |all| ensures PRODUCT_EAN(all[i]) != PRODUCT_EAN(all[j]) {
      assert all[j] == rest[j - 1] && rest[j - 1] in rest;
      if i > 0 { assert PRODUCT_EAN(rest[i - 1]) != PRODUCT_EAN(rest[j - 1]); }
    }
  }

  /** The map keeps one product of every EAN, and the last one listed. */
  lemma {:induction false} ByEanMembers(products: seq<Product>)
    ensures DistinctBy(ByEan(products), PRODUCT_EAN)
    ensures forall q | q in ByEan(products) :: q in products
    ensures forall ean :: HasProduct(ByEan(products), ean) <==> HasProduct(products, ean)
    ensures products != [] ==> products[|products| - 1] in ByEan(products)
  {
    if products != [] {
      var init, last := products[..|products| - 1], products[|products| - 1];
      assert products == init + [last];
      ByEanMembers(init);
      PutMembers(ByEan(init), last);
      forall ean ensures HasProduct(ByEan(products), ean) <==> HasProduct(products, ean) {
        SameEansAfterPut(init, last, ean);
      }
    }
  }

  lemma SameEansAfterPut(init: seq<Product>, last: Product, ean: string)
    requires DistinctBy(ByEan(init), PRODUCT_EAN) && (HasProduct(ByEan(init), ean) <==> HasProduct(init, ean))
    ensures HasProduct(Put(ByEan(init), last), ean) <==> HasProduct(init + [last], ean)
  {
    PutMembers(ByEan(init), last);
    var put, all := Put(ByEan(init), last), init + [last];
    assert last in put && last in all;
    if ean != last.ean {
      if q :| q in put && q.ean == ean {
        assert q in ByEan(init);
        var q' :| q' in init && q'.ean == ean;
        assert q' in all;
      }
      if q :| q in all && q.ean == ean {
        assert q in init;
        var q' :| q' in ByEan(init) && q'.ean == ean;
        assert q' in put;
      }
    }
  }

  lemma PutProductHas(products: seq<Product>, p: Product, ean: string)
    ensures Merged(products, p) in PutProduct(products, p) && HasProduct(PutProduct(products, p), p.ean)
    ensures HasProduct(products, ean) ==> HasProduct(PutProduct(products, p), ean)
    ensures forall q | q in PutProduct(products, p) :: q in products || q == Merged(products, p)
  {
    var all := products + [Merged(products, p)];
    ByEanMembers(all);
    assert all[|products|] in all;
    if HasProduct(products, ean) {
      var q :| q in products && q.ean == ean;
      assert q in all && HasProduct(all, ean);
    }
    assert HasProduct(all, p.ean);
  }

  /** The products of exact rules survive the pruning. */
  lemma PruningKeepsExact(fits: (Rule, Product) -> bool, needs: seq<Need>, rules: seq<Rule>, products: seq<Product>,
                          r: Rule)
    requires r in rules && r.Exact? && IsReferenced(needs, r.id) && HasProduct(products, r.ean)
    ensures HasProduct(Keep(products, (q: Product) => q.ean in ReferencedEans(fits, needs, rules, products)), r.ean)
  {
    var referenced := ReferencedEans(fits, needs, rules, products);
    var p :| p in products && p.ean == r.ean;
    var n :| n in needs && n.ruleId == r.id;
    assert p.ean in Matching(fits, r, products);
    assert r.ean in referenced;
    KeepMembers(products, (q: Product) => q.ean in referenced);
    assert p in Keep(products, (q: Product) => q.ean in referenced);
  }

  // ----- Sizes

  ghost function KeysOf<T(!new), K(!new)>(s: seq<T>, key: T -> K): set<K> {
    set x | x in s :: key(x)
  }

  lemma {:induction false} DistinctCount<T(!new), K(!new)>(s: seq<T>, key: T -> K)
    requires DistinctBy(s, key)
    ensures |KeysOf(s, key)| == |s|
  {
    if s != [] {
      var init, last := s[..|s| - 1], s[|s| - 1];
      DistinctCount(init, key);
      assert s == init + [last];
      assert KeysOf(s, key) == KeysOf(init, key) + {key(last)};
      assert key(last) !in KeysOf(init, key);
    }
  }

  /** A sound basket has as many rules as needs, and no more confirmations. */
  lemma SizesAgree(b: Basket)
    requires Sound(b)
    ensures |b.rules| == |b.needs| && |b.confirmations| <= |b.needs|
  {
    DistinctCount(b.needs, NEED_RULE);
    DistinctCount(b.rules, RULE_ID);
    DistinctCount(b.confirmations, CONFIRMED_RULE);
    RuleIdsAreNeedRules(b);
    ConfirmedRulesExist(b);
    SubsetSize(KeysOf(b.confirmations, CONFIRMED_RULE), KeysOf(b.rules, RULE_ID));
  }

  lemma RuleIdsAreNeedRules(b: Basket)
    requires Relational(b)
    ensures KeysOf(b.needs, NEED_RULE) == KeysOf(b.rules, RULE_ID)
  {
    forall id ensures id in KeysOf(b.needs, NEED_RULE) <==> id in KeysOf(b.rules, RULE_ID) {
      if id in KeysOf(b.needs, NEED_RULE) {
        var n :| n in b.needs && NEED_RULE(n) == id;
        var r :| r in b.rules && r.id == n.ruleId;
        assert RULE_ID(r) == id;
      }
      if id in KeysOf(b.rules, RULE_ID) {
        var r :| r in b.rules && RULE_ID(r) == id;
        var n :| n in b.needs && n.ruleId == r.id;
        assert NEED_RULE(n) == id;
      }
    }
  }

  lemma ConfirmedRulesExist(b: Basket)
    requires Confirmed(b)
    ensures KeysOf(b.confirmations, CONFIRMED_RULE) <= KeysOf(b.rules, RULE_ID)
  {
    forall id | id in KeysOf(b.confirmations, CONFIRMED_RULE) ensures id in KeysOf(b.rules, RULE_ID) {
      var c :| c in b.confirmations && CONFIRMED_RULE(c) == id;
      var r :| r in b.rules && Confirms(c, r);
      assert RULE_ID(r) == id;
    }
  }

  // ----- Every edit keeps the basket sound

  ghost predicate FreshIds(b: Basket, needId: string, ruleId: string) {
    (forall n | n in b.needs :: n.id != needId && n.ruleId != ruleId) && (forall r | r in b.rules :: r.id != ruleId)
  }

  lemma DistinctAppend<T(!new), K>(s: seq<T>, x: T, key: T -> K)
    requires DistinctBy(s, key) && (forall y | y in s :: key(y) != key(x))
    ensures DistinctBy(s + [x], key)
  {
  }

  lemma AddedRuleIsReferenced(b: Basket, n: Need, r: Rule)
    requires Relational(b) && n.ruleId == r.id
    ensures forall m | m in b.needs + [n] :: HasRule(b.rules + [r], m.ruleId)
    ensures forall q | q in b.rules + [r] :: IsReferenced(b.needs + [n], q.id)
  {
    forall m | m in b.needs + [n] ensures HasRule(b.rules + [r], m.ruleId) {
      if m in b.needs {
        var q :| q in b.rules && q.id == m.ruleId;
        assert q in b.rules + [r];
      } else {
        assert r in b.rules + [r];
      }
    }
    forall q | q in b.rules + [r] ensures IsReferenced(b.needs + [n], q.id) {
      if q in b.rules {
        var m :| m in b.needs && m.ruleId == q.id;
        assert m in b.needs + [n];
      } else {
        assert n in b.needs + [n];
      }
    }
  }

  lemma AppendIsRelational(b: Basket, n: Need, r: Rule, products: seq<Product>, confirmations: seq<Confirmation>)
    requires Relational(b) && FreshIds(b, n.id, n.ruleId) && r.id == n.ruleId
    requires forall q | q in b.rules + [r] && q.Exact? :: HasProduct(products, q.ean)
    ensures Relational(Basket(b.needs + [n], b.rules + [r], products, confirmations))
  {
    DistinctAppend(b.needs, n, NEED_ID);
    DistinctAppend(b.needs, n, NEED_RULE);
    DistinctAppend(b.rules, r, RULE_ID);
    AddedRuleIsReferenced(b, n, r);
  }

  lemma AddExactKeeps(b: Basket, p: Product, needId: string, ruleId: string)
    requires Sound(b) && FreshIds(b, needId, ruleId)
    ensures Sound(AddExact(b, p, needId, ruleId))
  {
    var b' := AddExact(b, p, needId, ruleId);
    if b' != b {
      var r := Exact(ruleId, p.ean);
      forall q | q in b.rules + [r] && q.Exact? ensures HasProduct(b'.products, q.ean) {
        PutProductHas(b.products, p, q.ean);
      }
      AppendIsRelational(b, Need(needId, ruleId, p.name), r, b'.products, b.confirmations);
      ConfirmedWithMoreRules(b, b', r);
    }
  }

  lemma ConfirmedWithMoreRules(b: Basket, b': Basket, r: Rule)
    requires Confirmed(b) && b'.rules == b.rules + [r] && b'.confirmations == b.confirmations
    ensures Confirmed(b')
  {
    forall c | c in b'.confirmations ensures exists q :: q in b'.rules && Confirms(c, q) {
      var q :| q in b.rules && Confirms(c, q);
      assert q in b'.rules;
    }
  }

  lemma FamilyCandidateIsSound(b: Basket, i: FamilyInput, needId: string, ruleId: string)
    requires Sound(b) && FreshIds(b, needId, ruleId) && i.active
    ensures Sound(FamilyCandidate(b, i, needId, ruleId))
  {
    var b' := FamilyCandidate(b, i, needId, ruleId);
    var r, c := Generic(ruleId, Some(i.family), i.brands), Confirmation(ruleId, i.family, i.brands, true);
    AppendIsRelational(b, Need(needId, ruleId, i.family), r, b.products, b'.confirmations);
    forall d | d in b.confirmations ensures d.ruleId != ruleId {
      var q :| q in b.rules && Confirms(d, q);
    }
    DistinctAppend(b.confirmations, c, CONFIRMED_RULE);
    forall d | d in b'.confirmations ensures exists q :: q in b'.rules && Confirms(d, q) {
      if d in b.confirmations {
        var q :| q in b.rules && Confirms(d, q);
        assert q in b'.rules;
      } else {
        assert r in b'.rules && Confirms(c, r);
      }
    }
  }

  function BrandLengths(brands: seq<string>): nat {
    if brands == [] then 0 else |brands[0]| + BrandLengths(brands[1..])
  }

  lemma {:induction false} JoinedLength(brands: seq<string>)
    requires brands != []
    ensures |JoinedBrands(brands)| == BrandLengths(brands) + 7 * (|brands| - 1)
  {
    if |brands| == 1 {
      assert brands[1..] == [];
    } else {
      JoinedLength(brands[1..]);
    }
  }

  /** The explanation fits: 22 characters, the brands and 7 for each join are at most 500. */
  predicate BrandsCanBeExplained(brands: Option<seq<string>>) {
    brands.Some? && brands.value != [] ==>
      22 + BrandLengths(brands.value) + 7 * (|brands.value| - 1) <= EXPLANATION_LENGTH_MAX
  }

  lemma ExplanationFitsIff(brands: Option<seq<string>>)
    ensures |Explanation(brands)| <= EXPLANATION_LENGTH_MAX <==> BrandsCanBeExplained(brands)
  {
    if brands.Some? && brands.value != [] { JoinedLength(brands.value); }
  }

  /**
   A new family is added exactly when its input is acceptable, its brands are short
   enough to be listed and the family is still active; otherwise the edit throws.
   */
  lemma AddFamilySucceedsIff(b: Basket, i: FamilyInput, needId: string, ruleId: string)
    requires Valid(b) && FreshIds(b, needId, ruleId)
    requires |b.needs| < BASKET_NEEDS_MAX && !HasFamily(b, i.family)
    ensures AddFamily(b, i, needId, ruleId).Some? <==> IsAcceptable(i) && BrandsCanBeExplained(i.brands) && i.active
    ensures AddFamily(b, i, needId, ruleId).Some? ==>
              AddFamily(b, i, needId, ruleId).value == FamilyCandidate(b, i, needId, ruleId)
  {
    SizesAgree(b);
    ExplanationFitsIff(i.brands);
    hide Explanation, BrandsCanBeExplained, IsAcceptable;
    if i.active {
      FamilyCandidateIsSound(b, i, needId, ruleId);
    } else {
      var b' := FamilyCandidate(b, i, needId, ruleId);
      var c := Confirmation(ruleId, i.family, i.brands, i.active);
      assert c in b'.confirmations;
      assert forall r | r in b'.rules :: !Confirms(c, r);
    }
  }

  /** A brand of 100 characters, one for each letter. */
  function LongBrand(letter: char): (brand: string)
    ensures |brand| == 100 && brand[0] == letter
  {
    seq(100, _ => letter)
  }

  /** Five brands that pass every check of the input and still make the edit throw. */
  lemma LongBrandsAreRefused()
    ensures var brands := [LongBrand('a'), LongBrand('b'), LongBrand('c'), LongBrand('d'), LongBrand('e')];
            var i := FamilyInput("family:brus", Some(brands), true, true, 1, 1, false);
            IsAcceptable(i) && AddFamily(Basket([], [], [], []), i, "need", "rule").None?
  {
    var brands := [LongBrand('a'), LongBrand('b'), LongBrand('c'), LongBrand('d'), LongBrand('e')];
    forall i, j | 0 <= i < j < |brands| ensures brands[i] != brands[j] {
      assert brands[i][0] != brands[j][0];
    }
    assert BrandLengths(brands) == 500 by {
      assert brands[1..] == [brands[1], brands[2], brands[3], brands[4]]
               && brands[2..] == [brands[2], brands[3], brands[4]];
      assert brands[3..] == [brands[3], brands[4]] && brands[4..] == [brands[4]] && brands[5..] == [];
      assert brands[1..][1..] == brands[2..] && brands[2..][1..] == brands[3..] && brands[3..][1..] == brands[4..];
      assert BrandLengths(brands[4..]) == 100 && BrandLengths(brands[3..]) == 200 && BrandLengths(brands[2..]) == 300;
    }
    ExplanationFitsIff(Some(brands));
  }

  lemma SetExactKeeps(fits: (Rule, Product) -> bool, b: Basket, needId: string, p: Product)
    requires Sound(b)
    ensures Sound(SetExact(fits, b, needId, p))
  {
  }

  lemma MapRulesAt(rules: seq<Rule>, id: string, r: Rule, q: Rule)
    ensures q in rules && q.id != id ==> q in MapRules(rules, id, r)
    ensures q in rules && q.id == id ==> r in MapRules(rules, id, r)
    ensures q in MapRules(rules, id, r) ==> q == r || (q in rules && q.id != id)
  {
    var mapped := MapRules(rules, id, r);
    if q in rules {
      var i :| 0 <= i < |rules| && rules[i] == q;
      assert mapped[i] == if q.id == id then r else q;
    }
    if q in mapped {
      var i :| 0 <= i < |mapped| && mapped[i] == q;
      assert rules[i] in rules;
    }
  }

  /** Only the bounds can make the edit fall back: the edited basket itself is sound. */
  lemma ExactCandidateIsSound(fits: (Rule, Product) -> bool, b: Basket, ruleId: string, p: Product)
    requires Sound(b) && HasRule(b.rules, ruleId)
    ensures Sound(ExactCandidate(fits, b, ruleId, p))
  {
    var b' := ExactCandidate(fits, b, ruleId, p);
    var r := Exact(ruleId, p.ean);
    var products := PutProduct(b.products, p);
    forall n | n in b'.needs ensures HasRule(b'.rules, n.ruleId) {
      var q :| q in b.rules && q.id == n.ruleId;
      MapRulesAt(b.rules, ruleId, r, q);
    }
    forall q | q in b'.rules ensures IsReferenced(b'.needs, q.id) && (q.Exact? ==> HasProduct(b'.products, q.ean)) {
      MapRulesAt(b.rules, ruleId, r, q);
      var q0 :| q0 in b.rules && q0.id == q.id;
      assert IsReferenced(b.needs, q0.id);
      if q.Exact? {
        PutProductHas(b.products, p, q.ean);
        PruningKeepsExact(fits, b.needs, b'.rules, products, q);
      }
    }
    KeepDistinct(b.confirmations, (c: Confirmation) => c.ruleId != ruleId, CONFIRMED_RULE);
    KeepMembers(b.confirmations, (c: Confirmation) => c.ruleId != ruleId);
    forall c | c in b'.confirmations ensures exists q :: q in b'.rules && Confirms(c, q) {
      var q :| q in b.rules && Confirms(c, q);
      MapRulesAt(b.rules, ruleId, r, q);
    }
  }

  /** Setting a need to an exact product takes effect exactly when the resulting products fit. */
  lemma SetExactAppliesIffItFits(fits: (Rule, Product) -> bool, b: Basket, needId: string, p: Product, need: Need,
                                 rule: Rule)
    requires Valid(b) && FindNeed(b.needs, needId) == Some(need) && FindRule(b.rules, need.ruleId) == Some(rule)
    requires !(rule.Exact? && rule.ean == p.ean)
    ensures var candidate := ExactCandidate(fits, b, rule.id, p);
            SetExact(fits, b, needId, p) == if |candidate.products| <= BASKET_PRODUCTS_MAX then candidate else b
  {
    assert HasRule(b.rules, rule.id);
    ExactCandidateIsSound(fits, b, rule.id, p);
    KeepMembers(b.confirmations, (c: Confirmation) => c.ruleId != rule.id);
  }

  lemma RemoveKeeps(fits: (Rule, Product) -> bool, b: Basket, needId: string)
    requires Sound(b)
    ensures Sound(Remove(fits, b, needId))
  {
    var b' := Remove(fits, b, needId);
    var live := set n | n in b'.needs :: n.ruleId;
    var isOther := (n: Need) => n.id != needId;
    var isLive, isLiveC := (r: Rule) => r.id in live, (c: Confirmation) => c.ruleId in live;
    KeepMembers(b.needs, isOther);
    KeepMembers(b.rules, isLive);
    KeepMembers(b.confirmations, isLiveC);
    KeepDistinct(b.needs, isOther, NEED_ID);
    KeepDistinct(b.needs, isOther, NEED_RULE);
    KeepDistinct(b.rules, isLive, RULE_ID);
    KeepDistinct(b.confirmations, isLiveC, CONFIRMED_RULE);
    forall n | n in b'.needs ensures HasRule(b'.rules, n.ruleId) {
      var q :| q in b.rules && q.id == n.ruleId;
      assert q in b'.rules;
    }
    forall q | q in b'.rules ensures IsReferenced(b'.needs, q.id) && (q.Exact? ==> HasProduct(b'.products, q.ean)) {
      var n :| n in b'.needs && n.ruleId == q.id;
      if q.Exact? { PruningKeepsExact(fits, b'.needs, b'.rules, b.products, q); }
    }
    forall c | c in b'.confirmations ensures exists q :: q in b'.rules && Confirms(c, q) {
      var q :| q in b.rules && Confirms(c, q);
      assert q in b'.rules;
    }
  }

  /** Removing takes away exactly the need, its rule and its confirmation, and leaves every other one. */
  lemma RemoveIsLocal(fits: (Rule, Product) -> bool, b: Basket, needId: string)
    requires Sound(b)
    ensures var b' := Remove(fits, b, needId);
            && (forall n :: n in b'.needs <==> n in b.needs && n.id != needId)
            && (forall r :: r in b'.rules <==>
                  r in b.rules && !exists n :: n in b.needs && n.id == needId && n.ruleId == r.id)
            && (forall c :: c in b'.confirmations <==>
                  c in b.confirmations && exists r :: r in b'.rules && r.id == c.ruleId)
  {
    var b' := Remove(fits, b, needId);
    var live := set n | n in b'.needs :: n.ruleId;
    var isOther := (n: Need) => n.id != needId;
    var isLive, isLiveC := (r: Rule) => r.id in live, (c: Confirmation) => c.ruleId in live;
    KeepMembers(b.needs, isOther);
    KeepMembers(b.rules, isLive);
    KeepMembers(b.confirmations, isLiveC);
    forall r | r in b.rules ensures r.id in live <==> !exists n :: n in b.needs && n.id == needId && n.ruleId == r.id {
      var n :| n in b.needs && n.ruleId == r.id;
      SoleUser(b, n, r.id);
      if n.id != needId { assert n in b'.needs; }
    }
    forall c | c in b.confirmations ensures c.ruleId in live <==> exists r :: r in b'.rules && r.id == c.ruleId {
      var r :| r in b.rules && Confirms(c, r);
      assert r in b'.rules <==> r.id in live;
    }
  }

  lemma SoleUser(b: Basket, n: Need, ruleId: string)
    requires Relational(b) && n in b.needs && n.ruleId == ruleId
    ensures forall m | m in b.needs && m.ruleId == ruleId :: m == n
  {
    var i :| 0 <= i < |b.needs| && b.needs[i] == n;
    forall m | m in b.needs && m.ruleId == ruleId ensures m == n {
      var j :| 0 <= j < |b.needs| && b.needs[j] == m;
      assert NEED_RULE(b.needs[i]) == NEED_RULE(b.needs[j]);
    }
  }

  /** Setting a need to an exact product changes that need's rule and confirmation only, and stores the product. */
  lemma SetExactIsLocal(fits: (Rule, Product) -> bool, b: Basket, ruleId: string, p: Product)
    requires Sound(b) && HasRule(b.rules, ruleId)
    ensures var b' := ExactCandidate(fits, b, ruleId, p);
            && b'.needs == b.needs
            && (forall r: Rule | r.id != ruleId :: r in b'.rules <==> r in b.rules)
            && (forall r: Rule | r.id == ruleId :: r in b'.rules <==> r == Exact(ruleId, p.ean))
            && (forall c :: c in b'.confirmations <==> c in b.confirmations && c.ruleId != ruleId)
            && Merged(b.products, p) in b'.products
  {
    var b', r0 := ExactCandidate(fits, b, ruleId, p), Exact(ruleId, p.ean);
    forall r: Rule
      ensures r.id != ruleId ==> (r in b'.rules <==> r in b.rules)
      ensures r.id == ruleId ==> (r in b'.rules <==> r == r0)
    {
      MapRulesAt(b.rules, ruleId, r0, r);
      var q :| q in b.rules && q.id == ruleId;
      MapRulesAt(b.rules, ruleId, r0, q);
    }
    KeepMembers(b.confirmations, (c: Confirmation) => c.ruleId != ruleId);
    var products := PutProduct(b.products, p);
    PutProductHas(b.products, p, p.ean);
    var referenced := ReferencedEans(fits, b.needs, b'.rules, products);
    KeepMembers(products, (q: Product) => q.ean in referenced);
    var q :| q in b.rules && q.id == ruleId;
    var n :| n in b.needs && n.ruleId == q.id;
    assert r0 in b'.rules && p.ean in Matching(fits, r0, products);
    assert p.ean in referenced;
  }

  // ----- Sequences of edits

  datatype Edit =
    | AddExactEdit(product: Product, needId: string, ruleId: string)
    | AddFamilyEdit(input: FamilyInput, needId: string, ruleId: string)
    | SetExactEdit(target: string, product: Product)
    | RemoveEdit(target: string)

  /** An edit that throws leaves the basket as it was. */
  ghost function Apply(fits: (Rule, Product) -> bool, b: Basket, e: Edit): Basket {
    match e
    case AddExactEdit(p, needId, ruleId) => AddExact(b, p, needId, ruleId)
    case AddFamilyEdit(input, needId, ruleId) =>
      var r := AddFamily(b, input, needId, ruleId);
      if r.Some? then r.value else b
    case SetExactEdit(target, p) => SetExact(fits, b, target, p)
    case RemoveEdit(target) => Remove(fits, b, target)
  }

  ghost function ApplyAll(fits: (Rule, Product) -> bool, b: Basket, edits: seq<Edit>): Basket {
    if edits == [] then b else Apply(fits, ApplyAll(fits, b, edits[..|edits| - 1]), edits[|edits| - 1])
  }

  /** Created ids are new to the basket they are added to. */
  ghost predicate IdsAreFresh(fits: (Rule, Product) -> bool, b: Basket, edits: seq<Edit>) {
    edits == [] ||
    var before, e := ApplyAll(fits, b, edits[..|edits| - 1]), edits[|edits| - 1];
    && IdsAreFresh(fits, b, edits[..|edits| - 1])
    && (e.AddExactEdit? || e.AddFamilyEdit? ==> FreshIds(before, e.needId, e.ruleId))
  }

  /** Every sequence of edits keeps the relational invariant and the family confirmations. */
  lemma {:induction false} EditsKeepTheBasketSound(fits: (Rule, Product) -> bool, b: Basket, edits: seq<Edit>)
    requires Sound(b) && IdsAreFresh(fits, b, edits)
    ensures Sound(ApplyAll(fits, b, edits))
  {
    if edits != [] {
      var init, last := edits[..|edits| - 1], edits[|edits| - 1];
      EditsKeepTheBasketSound(fits, b, init);
      var before := ApplyAll(fits, b, init);
      match last
      case AddExactEdit(p, needId, ruleId) => AddExactKeeps(before, p, needId, ruleId);
      case AddFamilyEdit(input, needId, ruleId) =>
      case SetExactEdit(target, p) => SetExactKeeps(fits, before, target, p);
      case RemoveEdit(target) => RemoveKeeps(fits, before, target);
    }
  }

  /** Removing the need that was just added gives the needs, rules and confirmations back. */
  lemma RemoveUndoesAddExact(fits: (Rule, Product) -> bool, b: Basket, p: Product, needId: string, ruleId: string)
    requires Sound(b) && FreshIds(b, needId, ruleId)
    requires |b.needs| < BASKET_NEEDS_MAX && !Exists(b.rules, (r: Rule) => r.Exact? && r.ean == p.ean)
    ensures var back := Remove(fits, AddExact(b, p, needId, ruleId), needId);
            back.needs == b.needs && back.rules == b.rules && back.confirmations == b.confirmations
  {
    hide Sound, FreshIds, PutProduct, ReferencedEans, Exists;
    RemoveTakesTheNeed(b, Need(needId, ruleId, p.name));
    RemoveTakesTheRule(b, Exact(ruleId, p.ean), needId);
    RemoveLeavesTheConfirmations(b);
  }

  /** Keeping the other needs undoes appending one. */
  lemma RemoveTakesTheNeed(b: Basket, n: Need)
    requires FreshIds(b, n.id, n.ruleId)
    ensures Keep(b.needs + [n], (m: Need) => m.id != n.id) == b.needs
  {
    var isOther := (m: Need) => m.id != n.id;
    KeepConcat(b.needs, [n], isOther);
    KeepAll(b.needs, isOther);
    assert [n][1..] == [] && Keep([n], isOther) == [];
  }

  /** Keeping the rules of the needs undoes appending one. */
  lemma RemoveTakesTheRule(b: Basket, r: Rule, needId: string)
    requires Sound(b) && FreshIds(b, needId, r.id)
    ensures var live := set m | m in b.needs :: m.ruleId;
            Keep(b.rules + [r], (q: Rule) => q.id in live) == b.rules
  {
    var live := set m | m in b.needs :: m.ruleId;
    var isLive := (q: Rule) => q.id in live;
    forall q | q in b.rules ensures isLive(q) {
      var m :| m in b.needs && m.ruleId == q.id;
    }
    KeepConcat(b.rules, [r], isLive);
    KeepAll(b.rules, isLive);
    assert [r][1..] == [] && Keep([r], isLive) == [];
  }

  lemma RemoveLeavesTheConfirmations(b: Basket)
    requires Sound(b)
    ensures var live := set m | m in b.needs :: m.ruleId;
            Keep(b.confirmations, (c: Confirmation) => c.ruleId in live) == b.confirmations
  {
    var live := set m | m in b.needs :: m.ruleId;
    var isLive := (c: Confirmation) => c.ruleId in live;
    forall c | c in b.confirmations ensures isLive(c) {
      var q :| q in b.rules && Confirms(c, q);
      var m :| m in b.needs && m.ruleId == q.id;
    }
    KeepAll(b.confirmations, isLive);
  }

  // ----- The product bound, which adding does not check

  /** The rebuilt list has one product per EAN. */
  lemma PutProductSize(products: seq<Product>, p: Product)
    ensures |PutProduct(products, p)| == |EansOf(products) + {p.ean}|
  {
    var all := products + [Merged(products, p)];
    ByEanMembers(all);
    DistinctCount(ByEan(all), PRODUCT_EAN);
    forall ean ensures ean in EansOf(ByEan(all)) <==> ean in EansOf(products) + {p.ean} {
      EansAreProducts(ByEan(all), ean);
      EansAreProducts(products, ean);
      AddedEan(products, p, ean);
    }
    assert EansOf(ByEan(all)) == EansOf(products) + {p.ean};
  }

  lemma EansAreProducts(products: seq<Product>, ean: string)
    ensures ean in EansOf(products) <==> HasProduct(products, ean)
  {
    if ean in EansOf(products) { var p :| p in products && PRODUCT_EAN(p) == ean; }
    if HasProduct(products, ean) { var p :| p in products && p.ean == ean; assert PRODUCT_EAN(p) == ean; }
  }

  lemma AddedEan(products: seq<Product>, p: Product, ean: string)
    ensures HasProduct(products + [Merged(products, p)], ean) <==> HasProduct(products, ean) || ean == p.ean
  {
    var all := products + [Merged(products, p)];
    assert all[|products|] in all;
    if HasProduct(products, ean) { var q :| q in products && q.ean == ean; assert q in all; }
    if q :| q in all && q.ean == ean { assert q in products || q == Merged(products, p); }
  }

  /**
   Adding an exact product to a valid basket stays within its bounds exactly when the
   distinct EANs with the new one number at most 200. Past that the basket can no
   longer be saved, since saving validates it.
   */
  lemma AddExactStaysInBoundsIff(b: Basket, p: Product, needId: string, ruleId: string)
    requires Valid(b) && |b.needs| < BASKET_NEEDS_MAX
    requires !Exists(b.rules, (r: Rule) => r.Exact? && r.ean == p.ean)
    ensures WithinBounds(AddExact(b, p, needId, ruleId)) <==> |EansOf(b.products) + {p.ean}| <= BASKET_PRODUCTS_MAX
  {
    SizesAgree(b);
    PutProductSize(b.products, p);
  }

  /** The i-th of 200 different EANs. */
  function Ean(i: nat): string
    requires i < 1000
  {
    "70000" + BasketQuantity.Pad3(i)
  }

  function FullBasket(): Basket {
    var products := seq(BASKET_PRODUCTS_MAX, i requires 0 <= i < BASKET_PRODUCTS_MAX => Product(Ean(i), "vare", map[]));
    Basket([], [], products, [])
  }

  lemma EansDiffer(i: nat, j: nat)
    requires i < 1000 && j < 1000 && Ean(i) == Ean(j)
    ensures i == j
  {
    assert Ean(i)[5..] == BasketQuantity.Pad3(i) && Ean(j)[5..] == BasketQuantity.Pad3(j);
    BasketQuantity.Pad3IsRight(i);
    BasketQuantity.Pad3IsRight(j);
  }

  /** A valid basket of 200 different products that one more takes out of bounds. */
  lemma AddExactCanLeaveTheBounds()
    ensures Valid(FullBasket())
            && !WithinBounds(AddExact(FullBasket(), Product("80000000", "vare", map[]), "need", "rule"))
  {
    var full, p := FullBasket(), Product("80000000", "vare", map[]);
    forall i, j | 0 <= i < j < |full.products| ensures PRODUCT_EAN(full.products[i]) != PRODUCT_EAN(full.products[j]) {
      if Ean(i) == Ean(j) { EansDiffer(i, j); }
    }
    DistinctCount(full.products, PRODUCT_EAN);
    forall q | q in full.products ensures q.ean != p.ean {
      assert q.ean[0] == '7';
    }
    EansAreProducts(full.products, p.ean);
    assert Valid(full);
    AddExactStaysInBoundsIff(full, p, "need", "rule");
  }

  // ----- The validator

  /** How many needs refer to a rule. */
  function Uses(needs: seq<Need>, id: string): nat {
    if needs == [] then 0 else Uses(needs[..|needs| - 1], id) + if needs[|needs| - 1].ruleId == id then 1 else 0
  }

  lemma {:induction false} UsedIffReferenced(needs: seq<Need>, id: string)
    ensures Uses(needs, id) > 0 <==> IsReferenced(needs, id)
  {
    if needs != [] {
      var init, last := needs[..|needs| - 1], needs[|needs| - 1];
      UsedIffReferenced(init, id);
      assert needs == init + [last];
      assert last in needs;
    }
  }

  /** Used at most once exactly when no two needs share the rule. */
  lemma {:induction false} UsedOnceIffUnshared(needs: seq<Need>, id: string)
    ensures Uses(needs, id) <= 1 <==> forall i, j | 0 <= i < j < |needs| :: !(needs[i].ruleId == id == needs[j].ruleId)
  {
    if needs != [] {
      var last := |needs| - 1;
      var init := needs[..last];
      UsedOnceIffUnshared(init, id);
      UsedIffReferenced(init, id);
      assert forall i | 0 <= i < last :: init[i] == needs[i];
      if IsReferenced(init, id) {
        var n :| n in init && n.ruleId == id;
        var i :| 0 <= i < last && init[i] == n;
        assert needs[i].ruleId == id;
      }
      if Uses(needs, id) <= 1 && needs[last].ruleId == id {
        assert forall i | 0 <= i < last :: init[i] in init;
      }
    }
  }

  /** Counting uses is checking that each rule has one need of its own. */
  lemma CountsCheckTheRelation(b: Basket)
    requires DistinctBy(b.needs, NEED_ID) && DistinctBy(b.rules, RULE_ID)
    requires forall n | n in b.needs :: HasRule(b.rules, n.ruleId)
    ensures Relational(b)
            <==> forall r | r in b.rules :: Uses(b.needs, r.id) == 1 && (r.Exact? ==> HasProduct(b.products, r.ean))
  {
    forall r | r in b.rules ensures Uses(b.needs, r.id) > 0 <==> IsReferenced(b.needs, r.id) {
      UsedIffReferenced(b.needs, r.id);
    }
    if forall r | r in b.rules :: Uses(b.needs, r.id) == 1 {
      forall i, j | 0 <= i < j < |b.needs| ensures b.needs[i].ruleId != b.needs[j].ruleId {
        assert b.needs[i] in b.needs;
        var r :| r in b.rules && r.id == b.needs[i].ruleId;
        UsedOnceIffUnshared(b.needs, r.id);
      }
    }
    if DistinctBy(b.needs, NEED_RULE) {
      forall r | r in b.rules ensures Uses(b.needs, r.id) <= 1 {
        assert forall i, j | 0 <= i < j < |b.needs| :: NEED_RULE(b.needs[i]) != NEED_RULE(b.needs[j]);
        UsedOnceIffUnshared(b.needs, r.id);
      }
    }
  }

  /** `validateBasketRelationships`: accepts exactly the relational baskets. */
  method ValidateRelationships(b: Basket) returns (ok: bool)
    ensures ok <==> Relational(b)
  {
    var rulesOk, ruleIds := CheckRuleIds(b.rules);
    var needsOk, usage := CheckNeeds(b.needs, ruleIds);
    if !rulesOk || !needsOk {
      return false;
    }
    CountsCheckTheRelation(b);
    ok := CheckRules(b, usage);
  }

  method CheckRuleIds(rules: seq<Rule>) returns (ok: bool, ids: set<string>)
    ensures ok <==> DistinctBy(rules, RULE_ID)
    ensures forall id :: id in ids <==> HasRule(rules, id)
  {
    ok, ids := true, {};
    for i := 0 to |rules|
      invariant ok <==> DistinctBy(rules[..i], RULE_ID)
      invariant forall id :: id in ids <==> exists k :: 0 <= k < i && rules[k].id == id
    {
      assert rules[..i + 1] == rules[..i] + [rules[i]];
      if rules[i].id in ids {
        var k :| 0 <= k < i && rules[k].id == rules[i].id;
        assert RULE_ID(rules[..i + 1][k]) == RULE_ID(rules[..i + 1][i]);
        ok := false;
      } else if !ok {
        NotDistinctLonger(rules[..i], rules[i], RULE_ID);
      }
      ids := ids + {rules[i].id};
    }
    assert rules[..|rules|] == rules;
    assert forall k | 0 <= k < |rules| :: rules[k] in rules;
  }

  lemma NotDistinctLonger<T, K>(s: seq<T>, x: T, key: T -> K)
    requires !DistinctBy(s, key)
    ensures !DistinctBy(s + [x], key)
  {
    var i, j :| 0 <= i < j < |s| && key(s[i]) == key(s[j]);
    assert key((s + [x])[i]) == key((s + [x])[j]);
  }

  /** The use count of every known rule, and whether need ids are unique and rules known. */
  method CheckNeeds(needs: seq<Need>, ruleIds: set<string>) returns (ok: bool, usage: map<string, nat>)
    ensures ok <==> DistinctBy(needs, NEED_ID) && forall n | n in needs :: n.ruleId in ruleIds
    ensures usage.Keys == ruleIds && forall id | id in ruleIds :: usage[id] == Uses(needs, id)
  {
    hide DistinctBy;
    var idsOk := CheckNeedIds(needs);
    var known := true;
    usage := map id | id in ruleIds :: 0;
    for i := 0 to |needs|
      invariant known <==> forall k | 0 <= k < i :: needs[k].ruleId in ruleIds
      invariant usage.Keys == ruleIds && forall id | id in ruleIds :: usage[id] == Uses(needs[..i], id)
    {
      assert needs[..i + 1][..i] == needs[..i];
      var id := needs[i].ruleId;
      if id in usage {
        usage := usage[id := usage[id] + 1];
      } else {
        known := false;
      }
    }
    assert needs[..|needs|] == needs;
    ok := idsOk && known;
  }

  method CheckNeedIds(needs: seq<Need>) returns (ok: bool)
    ensures ok <==> DistinctBy(needs, NEED_ID)
  {
    var ids: set<string> := {};
    for i := 0 to |needs|
      invariant DistinctBy(needs[..i], NEED_ID)
      invariant forall id :: id in ids <==> exists k :: 0 <= k < i && needs[k].id == id
    {
      if needs[i].id in ids {
        var k :| 0 <= k < i && needs[k].id == needs[i].id;
        assert NEED_ID(needs[k]) == NEED_ID(needs[i]);
        return false;
      }
      assert needs[..i + 1] == needs[..i] + [needs[i]];
      ids := ids + {needs[i].id};
    }
    assert needs[..|needs|] == needs;
    return true;
  }

  method CheckRules(b: Basket, usage: map<string, nat>) returns (ok: bool)
    requires forall r | r in b.rules :: r.id in usage && usage[r.id] == Uses(b.needs, r.id)
    ensures ok <==> forall r | r in b.rules :: Uses(b.needs, r.id) == 1 && (r.Exact? ==> HasProduct(b.products, r.ean))
  {
    var eans := set p | p in b.products :: p.ean;
    assert forall ean :: ean in eans <==> HasProduct(b.products, ean);
    ok := true;
    for i := 0 to |b.rules|
      invariant ok <==> forall k | 0 <= k < i ::
                  Uses(b.needs, b.rules[k].id) == 1 && (b.rules[k].Exact? ==> HasProduct(b.products, b.rules[k].ean))
    {
      var r := b.rules[i];
      if usage[r.id] != 1 || (r.Exact? && r.ean !in eans) {
        ok := false;
      }
    }
  }

  /** Adding an exact product changes the basket exactly when there is room for a need and no rule has the EAN yet. */
  lemma AddExactChangesIff(b: Basket, p: Product, needId: string, ruleId: string)
    ensures AddExact(b, p, needId, ruleId) != b <==>
              |b.needs| < BASKET_NEEDS_MAX && forall r | r in b.rules && r.Exact? :: r.ean != p.ean
    ensures var b' := AddExact(b, p, needId, ruleId);
            b' != b ==>
              && b'.needs == b.needs + [Need(needId, ruleId, p.name)] && b'.rules == b.rules + [Exact(ruleId, p.ean)]
              && b'.confirmations == b.confirmations && Merged(b.products, p) in b'.products
  {
    var taken := (r: Rule) => r.Exact? && r.ean == p.ean;
    ExistsIs(b.rules, taken);
    var all := b.products + [Merged(b.products, p)];
    PutProductHolds(b.products, p);
  }

  lemma {:induction false} ExistsIs<T>(s: seq<T>, p: T -> bool)
    ensures Exists(s, p) <==> exists x :: x in s && p(x)
  {
    if s != [] {
      ExistsIs(s[1..], p);
      assert s == [s[0]] + s[1..];
    }
  }

  lemma PutProductHolds(products: seq<Product>, p: Product)
    ensures Merged(products, p) in PutProduct(products, p)
  {
    var all := products + [Merged(products, p)];
    assert all[..|all| - 1] == products;
    PutHolds(ByEan(products), Merged(products, p));
  }

  lemma {:induction false} PutHolds(kept: seq<Product>, p: Product)
    ensures p in Put(kept, p)
  {
    if kept != [] && kept[0].ean != p.ean { PutHolds(kept[1..], p); }
  }

  /** The demands on a family's input, in numbers. */
  lemma AcceptableFamilies(i: FamilyInput)
    ensures IsAcceptable(i) <==>
              && i.parsed && 1 <= i.candidateCount <= 50
              && 1 <= i.quantity <= (if i.measured then 999999 else 999)
              && (i.brands.Some? ==>
                    var brands := i.brands.value;
                    && 1 <= |brands| <= 20
                    && (forall k | 0 <= k < |brands| :: 1 <= |brands[k]| <= 120)
                    && (forall k, l | 0 <= k < |brands| && 0 <= l < |brands| && brands[k] == brands[l] :: k == l))
  {
    if i.brands.Some? { assert forall k | 0 <= k < |i.brands.value| :: i.brands.value[k] in i.brands.value; }
  }

  /** A family that has a rule already, or a full basket, leaves the basket alone. */
  lemma AddFamilyLeaves(b: Basket, i: FamilyInput, needId: string, ruleId: string)
    ensures HasFamily(b, i.family) <==> exists r :: r in b.rules && r.Generic? && r.family == Some(i.family)
    ensures |b.needs| >= 50 || HasFamily(b, i.family) ==> AddFamily(b, i, needId, ruleId) == Some(b)
  {
    ExistsIs(b.rules, (r: Rule) => r.Generic? && r.family == Some(i.family));
  }
}
