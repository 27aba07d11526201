/**
 The shopping planner (packages/domain/src/planner.ts: `combinations`,
 `planForSubset`, `dominates`, `calculatePlans`; packages/domain/src/fulfilment.ts:
 `calculatePackageFulfilment`).

 A request holds the required needs in the order of their ids, the products each
 need's rule matches and the prices that are fresh enough. Chains are their ranks
 in the fixed chain order.
 */
module Planner {
  import opened WorkerContracts
  import opened Wrappers
  import opened Collections
  import Text = DiscoveryPages

  const CHAIN_COUNT := 13
  const MAX_PERSISTED_MONEY_ORE := 2147483647

  type Chain = c: nat | c < CHAIN_COUNT

  datatype Unit = Each | Grams | Millilitres | Pieces | Packages

  datatype Package = Package(amount: nat, unit: Unit)

  /** `eans` are the matching products of the rule. */
  datatype Rule = Rule(exact: bool, eans: set<string>)

  /** `rule` is absent when the need refers to no rule of the request. */
  datatype Need = Need(quantity: nat, unit: Unit, rule: Option<Rule>)

  datatype Price = Price(ean: string, chain: Chain, amountOre: nat, observedAt: int)

  datatype Request = Request(needs: seq<Need>, packages: map<string, Package>, prices: seq<Price>, maxStores: nat)

  datatype Assignment = Assignment(ean: string, chain: Chain, packageCount: nat, surplus: nat, costOre: nat,
                                   observedAt: int)

  datatype Plan = Plan(assignments: seq<Assignment>, totalOre: nat, chains: set<Chain>, substitutions: nat)

  // ----- Packages and cost of one need at one price

  function PackageCount(requested: nat, package: nat): (count: nat)
    requires package > 0
    ensures count * package >= requested
    ensures count > 0 ==> (count - 1) * package < requested
  {
    CeilingDivision(requested, package);
    (requested + package - 1) / package
  }

  lemma CeilingDivision(requested: nat, package: nat)
    requires package > 0
    ensures var count := (requested + package - 1) / package;
            count * package >= requested && (count - 1) * package < requested
  {
    var n := requested + package - 1;
    var count := n / package;
    assert n == count * package + n % package;
    assert (count - 1) * package == count * package - package;
  }

  /** The number of packages and the surplus, when the price's product can fulfil the need. */
  function Fulfil(need: Need, packages: map<string, Package>, ean: string): Option<(nat, nat)> {
    if need.unit.Each? then Some((need.quantity, 0))
    else if ean !in packages || packages[ean].unit != need.unit || packages[ean].amount == 0 then None
    else
      var count := PackageCount(need.quantity, packages[ean].amount);
      if count * packages[ean].amount > MAX_SAFE_INTEGER then None
      else Some((count, count * packages[ean].amount - need.quantity))
  }

  predicate Matches(need: Need, ean: string) {
    need.rule.Some? && ean in need.rule.value.eans
  }

  /** The assignment a price offers to a need. */
  function Offer(r: Request, need: Need, price: Price): Option<Assignment> {
    if !Matches(need, price.ean) then None
    else
      var packages := Fulfil(need, r.packages, price.ean);
      if packages.None? || price.amountOre * packages.value.0 > MAX_PERSISTED_MONEY_ORE then None
      else Some(Assignment(price.ean, price.chain, packages.value.0, packages.value.1,
                           price.amountOre * packages.value.0, price.observedAt))
  }

  // ----- The cheapest assignment within some chains

  /** The candidate order: cost, then product, then chain, then the fresher price. */
  predicate Better(a: Assignment, b: Assignment) {
    || a.costOre < b.costOre
    || (a.costOre == b.costOre && Text.TextLess(a.ean, b.ean))
    || (a.costOre == b.costOre && a.ean == b.ean && a.chain < b.chain)
    || (a.costOre == b.costOre && a.ean == b.ean && a.chain == b.chain && a.observedAt > b.observedAt)
  }

  function PickBetter(best: Option<Assignment>, offer: Option<Assignment>): Option<Assignment> {
    if offer.None? then best
    else if best.None? || Better(offer.value, best.value) then offer
    else best
  }

  function OfferWithin(r: Request, need: Need, price: Price, subset: set<Chain>): Option<Assignment> {
    if price.chain in subset then Offer(r, need, price) else None
  }

  /** The first of the best offers. */
  function Cheapest(r: Request, need: Need, prices: seq<Price>, subset: set<Chain>): Option<Assignment> {
    if prices == [] then None
    else PickBetter(Cheapest(r, need, prices[..|prices| - 1], subset),
                    OfferWithin(r, need, prices[|prices| - 1], subset))
  }

  lemma {:induction false} CheapestIsAnOffer(r: Request, need: Need, prices: seq<Price>, subset: set<Chain>)
    requires Cheapest(r, need, prices, subset).Some?
    ensures exists p :: p in prices && p.chain in subset && Offer(r, need, p) == Cheapest(r, need, prices, subset)
    ensures Cheapest(r, need, prices, subset).value.chain in subset
  {
    var init, last := prices[..|prices| - 1], prices[|prices| - 1];
    if Cheapest(r, need, prices, subset) == OfferWithin(r, need, last, subset) {
      assert last in prices;
    } else {
      CheapestIsAnOffer(r, need, init, subset);
      var p :| p in init && p.chain in subset && Offer(r, need, p) == Cheapest(r, need, init, subset);
      assert p in prices;
    }
  }

  lemma {:induction false} CheapestCostsLeast(r: Request, need: Need, prices: seq<Price>, subset: set<Chain>, i: nat)
    requires i < |prices| && prices[i].chain in subset && Offer(r, need, prices[i]).Some?
    ensures Cheapest(r, need, prices, subset).Some?
    ensures Cheapest(r, need, prices, subset).value.costOre <= Offer(r, need, prices[i]).value.costOre
  {
    var last := |prices| - 1;
    if i < last {
      assert prices[..last][i] == prices[i];
      CheapestCostsLeast(r, need, prices[..last], subset, i);
    }
  }

  lemma BetterIsTransitive(a: Assignment, b: Assignment, c: Assignment)
    requires Better(a, b) && Better(b, c)
    ensures Better(a, c)
  {
    if Text.TextLess(a.ean, b.ean) && Text.TextLess(b.ean, c.ean) { Text.TextTransitive(a.ean, b.ean, c.ean); }
  }

  lemma NotBetterThanItself(a: Assignment)
    ensures !Better(a, a)
  {
    Text.TextOrder(a.ean, a.ean);
  }

  /** No offer within the chains precedes the chosen one, by cost, product, chain and freshness. */
  lemma NothingBeatsTheChosen(r: Request, need: Need, prices: seq<Price>, subset: set<Chain>, i: nat)
    requires i < |prices| && prices[i].chain in subset && Offer(r, need, prices[i]).Some?
    ensures Cheapest(r, need, prices, subset).Some?
    ensures InOrder(Cheapest(r, need, prices, subset).value, Offer(r, need, prices[i]).value)
  {
    ChosenIsNotBeaten(r, need, prices, subset, i);
    Text.TextOrder(Cheapest(r, need, prices, subset).value.ean, Offer(r, need, prices[i]).value.ean);
  }

  /** The cheaper one, then the lesser product, then the earlier chain, then the fresher price. */
  ghost predicate InOrder(a: Assignment, b: Assignment) {
    && a.costOre <= b.costOre
    && (a.costOre == b.costOre ==> a.ean == b.ean || Text.TextLess(a.ean, b.ean))
    && (a.costOre == b.costOre && a.ean == b.ean ==> a.chain <= b.chain)
    && (a.costOre == b.costOre && a.ean == b.ean && a.chain == b.chain ==> a.observedAt >= b.observedAt)
  }

  lemma {:induction false} ChosenIsNotBeaten(r: Request, need: Need, prices: seq<Price>, subset: set<Chain>, i: nat)
    requires i < |prices| && prices[i].chain in subset && Offer(r, need, prices[i]).Some?
    ensures Cheapest(r, need, prices, subset).Some?
    ensures !Better(Offer(r, need, prices[i]).value, Cheapest(r, need, prices, subset).value)
  {
    var last := |prices| - 1;
    var offer := Offer(r, need, prices[i]).value;
    if i < last {
      assert prices[..last][i] == prices[i];
      ChosenIsNotBeaten(r, need, prices[..last], subset, i);
      var before, chosen := Cheapest(r, need, prices[..last], subset).value, Cheapest(r, need, prices, subset).value;
      if Better(chosen, before) && Better(offer, chosen) { BetterIsTransitive(offer, chosen, before); }
    } else {
      NotBetterThanItself(offer);
    }
  }

  // ----- The plan of one set of chains

  function AssignNeeds(r: Request, needs: seq<Need>, subset: set<Chain>): Option<seq<Assignment>> {
    if needs == [] then Some([])
    else
      var before := AssignNeeds(r, needs[..|needs| - 1], subset);
      var chosen := Cheapest(r, needs[|needs| - 1], r.prices, subset);
      if before.None? || chosen.None? then None else Some(before.value + [chosen.value])
  }

  function Total(assignments: seq<Assignment>): nat {
    if assignments == [] then 0
    else Total(assignments[..|assignments| - 1]) + assignments[|assignments| - 1].costOre
  }

  function ChainsOf(assignments: seq<Assignment>): set<Chain> {
    set a | a in assignments :: a.chain
  }

  function Substitutions(needs: seq<Need>): nat {
    if needs == [] then 0
    else
      var last := needs[|needs| - 1];
      Substitutions(needs[..|needs| - 1]) + if last.rule.Some? && !last.rule.value.exact then 1 else 0
  }

  /** A total is the sum of its parts, whatever the split. */
  lemma {:induction false} TotalsAdd(a: seq<Assignment>, b: seq<Assignment>)
    ensures Total(a + b) == Total(a) + Total(b)
    ensures |b| == 1 ==> Total(b) == b[0].costOre
  {
    if b == [] {
      assert a + b == a;
    } else {
      assert (a + b)[..|a + b| - 1] == a + b[..|b| - 1];
      TotalsAdd(a, b[..|b| - 1]);
    }
  }

  /** The needs bought under a rule that is not exact. */
  ghost function SubstitutedNeeds(needs: seq<Need>): set<int> {
    set n | 0 <= n < |needs| && needs[n].rule.Some? && !needs[n].rule.value.exact
  }

  lemma {:induction false} SubstitutionsAreCounted(needs: seq<Need>)
    ensures Substitutions(needs) == |SubstitutedNeeds(needs)|
  {
    if needs != [] {
      var last := |needs| - 1;
      SubstitutionsAreCounted(needs[..last]);
      var before, all := SubstitutedNeeds(needs[..last]), SubstitutedNeeds(needs);
      assert all == if needs[last].rule.Some? && !needs[last].rule.value.exact then before + {last} else before;
    }
  }

  function PlanOf(r: Request, assignments: seq<Assignment>): Option<Plan> {
    var chains := ChainsOf(assignments);
    if Total(assignments) > MAX_PERSISTED_MONEY_ORE || |chains| == 0 || |chains| > r.maxStores || |chains| > 3 then None
    else Some(Plan(assignments, Total(assignments), chains, Substitutions(r.needs)))
  }

  function PlanForSubset(r: Request, subset: set<Chain>): Option<Plan> {
    var assignments := AssignNeeds(r, r.needs, subset);
    if assignments.None? then None else PlanOf(r, assignments.value)
  }

  // ----- Feasible plans, independently of the algorithm

  /** The count is the quantity itself, or the fewest packages of the need's unit that reach it. */
  ghost predicate IsFulfilled(r: Request, need: Need, ean: string, packageCount: nat, surplus: nat) {
    if need.unit.Each? then packageCount == need.quantity && surplus == 0
    else
      && ean in r.packages && r.packages[ean].unit == need.unit
      && packageCount * r.packages[ean].amount == need.quantity + surplus <= MAX_SAFE_INTEGER
      && surplus < r.packages[ean].amount
  }

  /** Buying a matching product of the price as often as the need takes, at that price for each package. */
  ghost predicate IsPurchase(r: Request, need: Need, price: Price, a: Assignment) {
    && need.rule.Some? && price.ean in need.rule.value.eans
    && a.ean == price.ean && a.chain == price.chain && a.observedAt == price.observedAt
    && IsFulfilled(r, need, price.ean, a.packageCount, a.surplus)
    && a.costOre == price.amountOre * a.packageCount <= MAX_PERSISTED_MONEY_ORE
  }

  lemma CountIsUnique(amount: nat, quantity: nat, count: nat, surplus: nat, count': nat, surplus': nat)
    requires count * amount == quantity + surplus && surplus < amount
    requires count' * amount == quantity + surplus' && surplus' < amount
    ensures count == count' && surplus == surplus'
  {
    if count < count' { LessByOne(count, count', amount); }
    if count' < count { LessByOne(count', count, amount); }
  }

  lemma {:induction false} LessByOne(count: nat, count': nat, amount: nat)
    requires count < count'
    ensures count * amount + amount <= count' * amount
  {
    assert count' * amount == (count' - 1) * amount + amount;
    if count < count' - 1 { LessByOne(count, count' - 1, amount); }
  }

  lemma FulfilIsRight(r: Request, need: Need, ean: string, count: nat, surplus: nat)
    ensures Fulfil(need, r.packages, ean) == Some((count, surplus)) <==> IsFulfilled(r, need, ean, count, surplus)
  {
    if !need.unit.Each? && ean in r.packages && r.packages[ean].unit == need.unit && r.packages[ean].amount > 0 {
      var amount := r.packages[ean].amount;
      var least := PackageCount(need.quantity, amount);
      LeastCountIsRight(need.quantity, amount);
      if IsFulfilled(r, need, ean, count, surplus) {
        CountIsUnique(amount, need.quantity, count, surplus, least, least * amount - need.quantity);
      }
    }
  }

  lemma LeastCountIsRight(quantity: nat, amount: nat)
    requires amount > 0
    ensures var least := PackageCount(quantity, amount); 0 <= least * amount - quantity < amount
  {
    var least := PackageCount(quantity, amount);
    if least > 0 { assert (least - 1) * amount == least * amount - amount; }
  }

  /** What a price offers to a need is exactly the purchase at that price. */
  lemma OfferIsThePurchase(r: Request, need: Need, price: Price, a: Assignment)
    ensures Offer(r, need, price) == Some(a) <==> IsPurchase(r, need, price, a)
  {
    FulfilIsRight(r, need, price.ean, a.packageCount, a.surplus);
    hide Fulfil, IsFulfilled;
  }

  ghost predicate IsOffer(r: Request, need: Need, a: Assignment) {
    exists i :: 0 <= i < |r.prices| && IsPurchase(r, need, r.prices[i], a)
  }

  lemma OfferOf(r: Request, need: Need, a: Assignment) returns (i: nat)
    requires IsOffer(r, need, a)
    ensures i < |r.prices| && Offer(r, need, r.prices[i]) == Some(a) && a.chain == r.prices[i].chain
  {
    i :| 0 <= i < |r.prices| && IsPurchase(r, need, r.prices[i], a);
    OfferIsThePurchase(r, need, r.prices[i], a);
  }

  lemma OffersAre(r: Request, need: Need, i: nat)
    requires i < |r.prices| && Offer(r, need, r.prices[i]).Some?
    ensures IsOffer(r, need, Offer(r, need, r.prices[i]).value)
  {
    OfferIsThePurchase(r, need, r.prices[i], Offer(r, need, r.prices[i]).value);
    hide Offer, IsPurchase;
  }

  /** Any way to cover every need from at most the allowed number of stores within the money bound. */
  ghost predicate Feasible(r: Request, assignments: seq<Assignment>) {
    && |assignments| == |r.needs| > 0
    && (forall n | 0 <= n < |r.needs| :: IsOffer(r, r.needs[n], assignments[n]))
    && |ChainsOf(assignments)| <= r.maxStores
    && Total(assignments) <= MAX_PERSISTED_MONEY_ORE
  }

  ghost predicate Covers(r: Request, needs: seq<Need>, assignments: seq<Assignment>, subset: set<Chain>) {
    && |assignments| == |needs|
    && (forall n | 0 <= n < |needs| :: IsOffer(r, needs[n], assignments[n]) && assignments[n].chain in subset)
  }

  /** Choosing need by need is choosing the least total. */
  lemma {:induction false} AssignNeedsCostsLeast(r: Request, needs: seq<Need>, assignments: seq<Assignment>,
                                                 subset: set<Chain>)
    requires Covers(r, needs, assignments, subset)
    ensures AssignNeeds(r, needs, subset).Some?
    ensures Total(AssignNeeds(r, needs, subset).value) <= Total(assignments)
  {
    hide Offer, Cheapest, IsOffer;
    if needs != [] {
      var last := |needs| - 1;
      var i := OfferOf(r, needs[last], assignments[last]);
      CheapestCostsLeast(r, needs[last], r.prices, subset, i);
      AssignNeedsCostsLeast(r, needs[..last], assignments[..last], subset);
      var before := AssignNeeds(r, needs[..last], subset).value;
      var chosen := Cheapest(r, needs[last], r.prices, subset).value;
      assert (before + [chosen])[..|before|] == before;
    }
  }

  lemma {:induction false} AssignNeedsCovers(r: Request, needs: seq<Need>, subset: set<Chain>)
    requires AssignNeeds(r, needs, subset).Some?
    ensures Covers(r, needs, AssignNeeds(r, needs, subset).value, subset)
  {
    if needs != [] {
      var last := |needs| - 1;
      AssignNeedsCovers(r, needs[..last], subset);
      CheapestIsAnOffer(r, needs[last], r.prices, subset);
      var p :| p in r.prices && p.chain in subset
        && Offer(r, needs[last], p) == Cheapest(r, needs[last], r.prices, subset);
      var i :| 0 <= i < |r.prices| && r.prices[i] == p;
      var before := AssignNeeds(r, needs[..last], subset).value;
      var all := AssignNeeds(r, needs, subset).value;
      assert all[|before|] == Cheapest(r, needs[last], r.prices, subset).value;
      OffersAre(r, needs[last], i);
      assert IsOffer(r, needs[last], all[last]);
    }
  }

  lemma ChainsWithin(r: Request, needs: seq<Need>, assignments: seq<Assignment>, subset: set<Chain>)
    requires Covers(r, needs, assignments, subset)
    ensures ChainsOf(assignments) <= subset && |ChainsOf(assignments)| <= |subset|
    ensures needs != [] ==> |ChainsOf(assignments)| > 0
  {
    SubsetSize(ChainsOf(assignments), subset);
    if needs != [] { assert assignments[0].chain in ChainsOf(assignments); }
  }

  lemma CoversItself(r: Request, assignments: seq<Assignment>)
    requires Feasible(r, assignments)
    ensures Covers(r, r.needs, assignments, ChainsOf(assignments))
  {
    forall n | 0 <= n < |assignments| ensures assignments[n].chain in ChainsOf(assignments) {
      assert assignments[n] in assignments;
    }
  }

  /** A set of chains yields a plan that is at least as good as every feasible plan using just those chains. */
  lemma SubsetPlanIsBest(r: Request, assignments: seq<Assignment>)
    requires Feasible(r, assignments) && r.maxStores <= 3
    ensures var plan := PlanForSubset(r, ChainsOf(assignments));
            && plan.Some? && plan.value.totalOre <= Total(assignments)
            && |plan.value.chains| <= |ChainsOf(assignments)|
            && plan.value.substitutions == Substitutions(r.needs)
  {
    var subset := ChainsOf(assignments);
    CoversItself(r, assignments);
    AssignNeedsCostsLeast(r, r.needs, assignments, subset);
    AssignNeedsCovers(r, r.needs, subset);
    var chosen := AssignNeeds(r, r.needs, subset).value;
    ChainsWithin(r, r.needs, chosen, subset);
    PlanExists(r, chosen);
  }

  lemma PlanExists(r: Request, assignments: seq<Assignment>)
    requires Total(assignments) <= MAX_PERSISTED_MONEY_ORE && 0 < |ChainsOf(assignments)| <= r.maxStores <= 3
    ensures PlanOf(r, assignments)
            == Some(Plan(assignments, Total(assignments), ChainsOf(assignments), Substitutions(r.needs)))
  {
  }

  lemma SubsetPlanIsFeasible(r: Request, subset: set<Chain>)
    requires PlanForSubset(r, subset).Some?
    ensures Sound(r, PlanForSubset(r, subset).value)
  {
    AssignNeedsCovers(r, r.needs, subset);
    NoChainsWithoutNeeds(PlanForSubset(r, subset).value.assignments);
  }

  lemma NoChainsWithoutNeeds(assignments: seq<Assignment>)
    requires |ChainsOf(assignments)| > 0
    ensures assignments != []
  {
    var c :| c in ChainsOf(assignments);
  }

  /** A plan says what its assignments cost and where they are bought, and is feasible. */
  ghost predicate Sound(r: Request, plan: Plan) {
    && Feasible(r, plan.assignments)
    && plan.totalOre == Total(plan.assignments)
    && plan.chains == ChainsOf(plan.assignments)
    && plan.substitutions == Substitutions(r.needs)
  }

  // ----- Combinations of chains

  /** The depth-first walk: the current combination, then every longer one that starts with it. */
  function Visit(chains: seq<Chain>, start: nat, current: seq<Chain>, maximum: nat): seq<seq<Chain>>
    requires start <= |chains|
    decreases |chains| - start, 1
  {
    (if current == [] then [] else [current])
    + (if |current| == maximum then [] else VisitFrom(chains, start, current, maximum))
  }

  function VisitFrom(chains: seq<Chain>, index: nat, current: seq<Chain>, maximum: nat): seq<seq<Chain>>
    requires index <= |chains|
    decreases |chains| - index, 0
  {
    if index == |chains| then []
    else Visit(chains, index + 1, current + [chains[index]], maximum) + VisitFrom(chains, index + 1, current, maximum)
  }

  function Combinations(chains: seq<Chain>, maximum: nat): seq<seq<Chain>> {
    Visit(chains, 0, [], maximum)
  }

  function Pick(chains: seq<Chain>, start: nat, subset: set<Chain>): seq<Chain>
    requires start <= |chains|
    decreases |chains| - start
  {
    if start == |chains| then []
    else (if chains[start] in subset then [chains[start]] else []) + Pick(chains, start + 1, subset)
  }

  lemma {:induction false} VisitFinds(chains: seq<Chain>, start: nat, current: seq<Chain>, maximum: nat,
                                      subset: set<Chain>)
    requires start <= |chains|
    requires 1 <= |current + Pick(chains, start, subset)| <= maximum
    ensures current + Pick(chains, start, subset) in Visit(chains, start, current, maximum)
    decreases |chains| - start, 1
  {
    var target := current + Pick(chains, start, subset);
    if Pick(chains, start, subset) == [] {
      assert target == current;
    } else {
      VisitFromFinds(chains, start, current, maximum, subset);
      assert |current| < maximum;
      var front := if current == [] then [] else [current];
      assert Visit(chains, start, current, maximum) == front + VisitFrom(chains, start, current, maximum);
    }
  }

  lemma {:induction false} VisitFromFinds(chains: seq<Chain>, index: nat, current: seq<Chain>, maximum: nat,
                                          subset: set<Chain>)
    requires index <= |chains| && Pick(chains, index, subset) != []
    requires |current + Pick(chains, index, subset)| <= maximum
    ensures current + Pick(chains, index, subset) in VisitFrom(chains, index, current, maximum)
    decreases |chains| - index, 0
  {
    if chains[index] in subset {
      assert current + Pick(chains, index, subset) == (current + [chains[index]]) + Pick(chains, index + 1, subset);
      VisitFinds(chains, index + 1, current + [chains[index]], maximum, subset);
    } else {
      assert Pick(chains, index, subset) == Pick(chains, index + 1, subset);
      VisitFromFinds(chains, index + 1, current, maximum, subset);
    }
  }

  function SetOf(chains: seq<Chain>): set<Chain> {
    set c | c in chains
  }

  lemma {:induction false} PickMembers(chains: seq<Chain>, start: nat, subset: set<Chain>)
    requires start <= |chains|
    ensures forall c :: c in Pick(chains, start, subset) <==> c in subset && c in chains[start..]
    decreases |chains| - start
  {
    if start < |chains| {
      PickMembers(chains, start + 1, subset);
      assert chains[start..] == [chains[start]] + chains[start + 1..];
    }
  }

  ghost predicate Distinct(chains: seq<Chain>) {
    forall i, j | 0 <= i < j < |chains| :: chains[i] != chains[j]
  }

  lemma {:induction false} PickSize(chains: seq<Chain>, start: nat, subset: set<Chain>)
    requires start <= |chains| && Distinct(chains)
    ensures |Pick(chains, start, subset)| <= |subset|
    decreases |chains| - start
  {
    if start < |chains| {
      if chains[start] in subset {
        PickSize(chains, start + 1, subset - {chains[start]});
        PickWithout(chains, start + 1, subset, chains[start]);
      } else {
        PickSize(chains, start + 1, subset);
      }
    }
  }

  lemma {:induction false} PickWithout(chains: seq<Chain>, start: nat, subset: set<Chain>, c: Chain)
    requires start <= |chains| && (forall i | start <= i < |chains| :: chains[i] != c)
    ensures Pick(chains, start, subset - {c}) == Pick(chains, start, subset)
    decreases |chains| - start
  {
    if start < |chains| {
      PickWithout(chains, start + 1, subset, c);
      assert chains[start] != c;
      var first := if chains[start] in subset then [chains[start]] else [];
      assert Pick(chains, start, subset) == first + Pick(chains, start + 1, subset);
      assert Pick(chains, start, subset - {c}) == first + Pick(chains, start + 1, subset - {c});
    }
  }

  /** Every non-empty set of at most `maximum` chains is visited. */
  lemma CombinationsAreComplete(chains: seq<Chain>, maximum: nat, subset: set<Chain>)
    requires Distinct(chains) && subset != {} && subset <= SetOf(chains) && |subset| <= maximum
    ensures exists c :: c in Combinations(chains, maximum) && SetOf(c) == subset
  {
    var c := Pick(chains, 0, subset);
    PickMembers(chains, 0, subset);
    PickSize(chains, 0, subset);
    assert chains[0..] == chains;
    assert SetOf(c) == subset;
    var x :| x in subset;
    assert x in c;
    assert [] + c == c;
    VisitFinds(chains, 0, [], maximum, subset);
  }

  // ----- The frontier

  predicate NoWorse(a: Plan, b: Plan) {
    a.totalOre <= b.totalOre && |a.chains| <= |b.chains| && a.substitutions <= b.substitutions
  }

  predicate Dominates(a: Plan, b: Plan) {
    && NoWorse(a, b)
    && (a.totalOre < b.totalOre || |a.chains| < |b.chains| || a.substitutions < b.substitutions)
  }

  predicate Undominated(plans: seq<Plan>, p: Plan) {
    forall q | q in plans :: !Dominates(q, p)
  }

  function Frontier(all: seq<Plan>, plans: seq<Plan>): seq<Plan> {
    if plans == [] then []
    else
      var before, last := Frontier(all, plans[..|plans| - 1]), plans[|plans| - 1];
      if Undominated(all, last) then before + [last] else before
  }

  lemma {:induction false} FrontierMembers(all: seq<Plan>, plans: seq<Plan>)
    ensures forall p :: p in Frontier(all, plans) <==> p in plans && Undominated(all, p)
  {
    if plans != [] {
      var init := plans[..|plans| - 1];
      FrontierMembers(all, init);
      assert plans == init + [plans[|plans| - 1]];
    }
  }

  /** Whatever is dominated is dominated, directly or not, by something that is not. */
  lemma {:induction false} FrontierReaches(plans: seq<Plan>, p: Plan) returns (best: Plan)
    requires p in plans
    ensures best in plans && Undominated(plans, best) && NoWorse(best, p)
    decreases p.totalOre + |p.chains| + p.substitutions
  {
    if Undominated(plans, p) {
      best := p;
    } else {
      var q :| q in plans && Dominates(q, p);
      best := FrontierReaches(plans, q);
    }
  }

  // ----- Plans with the same identity are merged

  datatype Key = Key(ean: string, chain: Chain, packageCount: nat, surplus: nat, costOre: nat)

  function KeyOf(a: Assignment): Key {
    Key(a.ean, a.chain, a.packageCount, a.surplus, a.costOre)
  }

  /** The identity leaves the observation time out. */
  function Identity(assignments: seq<Assignment>): seq<Key> {
    seq(|assignments|, i requires 0 <= i < |assignments| => KeyOf(assignments[i]))
  }

  lemma {:induction false} SameIdentitySameMeasures(a: seq<Assignment>, b: seq<Assignment>)
    requires Identity(a) == Identity(b)
    ensures Total(a) == Total(b) && ChainsOf(a) == ChainsOf(b)
  {
    assert |a| == |Identity(a)| == |b|;
    forall i | 0 <= i < |a| ensures KeyOf(a[i]) == KeyOf(b[i]) {
      assert Identity(a)[i] == Identity(b)[i];
    }
    SameTotals(a, b);
    forall c ensures c in ChainsOf(a) <==> c in ChainsOf(b) {
      if c in ChainsOf(a) { var i :| 0 <= i < |a| && a[i].chain == c; assert b[i] in b; }
      if c in ChainsOf(b) { var i :| 0 <= i < |b| && b[i].chain == c; assert a[i] in a; }
    }
  }

  lemma {:induction false} SameTotals(a: seq<Assignment>, b: seq<Assignment>)
    requires |a| == |b| && (forall i | 0 <= i < |a| :: KeyOf(a[i]) == KeyOf(b[i]))
    ensures Total(a) == Total(b)
  {
    if a != [] {
      var last := |a| - 1;
      assert KeyOf(a[last]) == KeyOf(b[last]);
      SameTotals(a[..last], b[..last]);
    }
  }

  /** The slot of an identity in a list of plans, or the list's length. */
  function Slot(kept: seq<Plan>, identity: seq<Key>): (i: nat)
    ensures i <= |kept|
    ensures i < |kept| ==> Identity(kept[i].assignments) == identity
    ensures forall k | 0 <= k < i :: Identity(kept[k].assignments) != identity
  {
    if kept == [] || Identity(kept[0].assignments) == identity then 0 else 1 + Slot(kept[1..], identity)
  }

  /** An insertion-ordered map: a later plan of the same identity takes the earlier one's place. */
  function Put(kept: seq<Plan>, plan: Plan): seq<Plan> {
    var i := Slot(kept, Identity(plan.assignments));
    if i == |kept| then kept + [plan] else kept[i := plan]
  }

  function Unique(plans: seq<Plan>): seq<Plan> {
    if plans == [] then [] else Put(Unique(plans[..|plans| - 1]), plans[|plans| - 1])
  }

  ghost predicate HasIdentity(plans: seq<Plan>, identity: seq<Key>) {
    exists p :: p in plans && Identity(p.assignments) == identity
  }

  lemma PutKeeps(kept: seq<Plan>, plan: Plan, identity: seq<Key>)
    ensures plan in Put(kept, plan)
    ensures forall p | p in Put(kept, plan) :: p in kept || p == plan
    ensures HasIdentity(kept, identity) ==> HasIdentity(Put(kept, plan), identity)
  {
    var slot, put := Slot(kept, Identity(plan.assignments)), Put(kept, plan);
    assert put[slot] == plan;
    if HasIdentity(kept, identity) {
      var p :| p in kept && Identity(p.assignments) == identity;
      var i :| 0 <= i < |kept| && kept[i] == p;
      assert put[i] in put && Identity(put[i].assignments) == identity;
    }
  }

  lemma {:induction false} UniqueKeepsIdentities(plans: seq<Plan>)
    ensures forall p | p in Unique(plans) :: p in plans
    ensures forall p | p in plans :: HasIdentity(Unique(plans), Identity(p.assignments))
  {
    if plans != [] {
      var init, last := plans[..|plans| - 1], plans[|plans| - 1];
      UniqueKeepsIdentities(init);
      assert plans == init + [last];
      PutKeeps(Unique(init), last, Identity(last.assignments));
      forall p | p in plans ensures HasIdentity(Unique(plans), Identity(p.assignments)) {
        if p in init { PutKeeps(Unique(init), last, Identity(p.assignments)); }
      }
    }
  }

  /** Of the plans with one identity the last is kept, and no other. */
  lemma {:induction false} UniqueKeepsTheLast(plans: seq<Plan>)
    ensures DistinctIdentities(Unique(plans))
    ensures forall p | p in Unique(plans) :: IsLastOfItsIdentity(plans, p)
  {
    if plans != [] {
      var init, last := plans[..|plans| - 1], plans[|plans| - 1];
      UniqueKeepsTheLast(init);
      PutIsDistinct(Unique(init), last);
      forall p | p in Unique(plans) ensures IsLastOfItsIdentity(plans, p) {
        if p == last {
          assert plans[|plans| - 1] == p;
        } else {
          PutReplaces(Unique(init), last, p);
          var i :| 0 <= i < |init| && init[i] == p
                   && forall j | i < j < |init| :: Identity(init[j].assignments) != Identity(p.assignments);
          assert plans[i] == p;
        }
      }
    }
  }

  ghost predicate DistinctIdentities(plans: seq<Plan>) {
    forall i, j | 0 <= i < j < |plans| :: Identity(plans[i].assignments) != Identity(plans[j].assignments)
  }

  ghost predicate IsLastOfItsIdentity(plans: seq<Plan>, p: Plan) {
    exists i :: 0 <= i < |plans| && plans[i] == p
      && forall j | i < j < |plans| :: Identity(plans[j].assignments) != Identity(p.assignments)
  }

  lemma PutIsDistinct(kept: seq<Plan>, plan: Plan)
    requires DistinctIdentities(kept)
    ensures DistinctIdentities(Put(kept, plan))
  {
    hide Identity;
  }

  lemma PutReplaces(kept: seq<Plan>, plan: Plan, p: Plan)
    requires DistinctIdentities(kept) && p in Put(kept, plan) && p != plan
    ensures p in kept && Identity(p.assignments) != Identity(plan.assignments)
  {
    hide Identity;
  }

  // ----- Sorting and the whole calculation

  /** Fewer stores, then fewer substitutions, then less money. */
  predicate Precedes(a: Plan, b: Plan) {
    || |a.chains| < |b.chains|
    || (|a.chains| == |b.chains| && a.substitutions < b.substitutions)
    || (|a.chains| == |b.chains| && a.substitutions == b.substitutions && a.totalOre < b.totalOre)
  }

  function Insert(sorted: seq<Plan>, p: Plan): seq<Plan> {
    if sorted == [] || !Precedes(p, sorted[|sorted| - 1]) then sorted + [p]
    else Insert(sorted[..|sorted| - 1], p) + [sorted[|sorted| - 1]]
  }

  function Sort(plans: seq<Plan>): seq<Plan> {
    if plans == [] then [] else Insert(Sort(plans[..|plans| - 1]), plans[|plans| - 1])
  }

  ghost predicate Sorted(plans: seq<Plan>) {
    forall i, j | 0 <= i < j < |plans| :: !Precedes(plans[j], plans[i])
  }

  lemma {:induction false} InsertAdds(sorted: seq<Plan>, p: Plan)
    ensures multiset(Insert(sorted, p)) == multiset(sorted) + multiset{p}
  {
    if sorted != [] && Precedes(p, sorted[|sorted| - 1]) {
      InsertAdds(sorted[..|sorted| - 1], p);
      assert sorted == sorted[..|sorted| - 1] + [sorted[|sorted| - 1]];
    }
  }

  lemma PutLast(sorted: seq<Plan>, p: Plan)
    requires Sorted(sorted) && forall q | q in sorted :: !Precedes(p, q)
    ensures Sorted(sorted + [p])
  {
    assert forall i | 0 <= i < |sorted| :: sorted[i] in sorted;
  }

  lemma PrecedesIsAnOrder(a: Plan, b: Plan, c: Plan)
    requires !Precedes(b, a) && !Precedes(c, b)
    ensures !Precedes(c, a)
  {
  }

  lemma {:induction false} InsertSorts(sorted: seq<Plan>, p: Plan)
    requires Sorted(sorted)
    ensures Sorted(Insert(sorted, p))
  {
    if sorted != [] {
      var init, last := sorted[..|sorted| - 1], sorted[|sorted| - 1];
      if Precedes(p, last) {
        InsertSorts(init, p);
        InsertAdds(init, p);
        forall q | q in Insert(init, p) ensures !Precedes(last, q) {
          assert q in multiset(Insert(init, p));
          if q != p {
            var k :| 0 <= k < |init| && init[k] == q;
            assert sorted[k] == q;
          }
        }
        PutLast(Insert(init, p), last);
      } else {
        forall q | q in sorted ensures !Precedes(p, q) {
          var k :| 0 <= k < |sorted| && sorted[k] == q;
          PrecedesIsAnOrder(q, last, p);
        }
        PutLast(sorted, p);
      }
    }
  }

  lemma {:induction false} SortSorts(plans: seq<Plan>)
    ensures Sorted(Sort(plans)) && multiset(Sort(plans)) == multiset(plans)
  {
    if plans != [] {
      var init, last := plans[..|plans| - 1], plans[|plans| - 1];
      SortSorts(init);
      InsertSorts(Sort(init), last);
      InsertAdds(Sort(init), last);
      assert plans == init + [last];
    }
  }

  lemma SortMembers(plans: seq<Plan>, p: Plan)
    ensures p in Sort(plans) <==> p in plans
  {
    SortSorts(plans);
    assert p in Sort(plans) <==> p in multiset(Sort(plans));
    assert p in plans <==> p in multiset(plans);
  }

  predicate HasPrice(r: Request, c: Chain) {
    exists p :: p in r.prices && p.chain == c
  }

  /** The chains with any fresh price, in rank order. */
  function AvailableChains(r: Request, below: nat): seq<Chain>
    requires below <= CHAIN_COUNT
  {
    if below == 0 then []
    else
      var before := AvailableChains(r, below - 1);
      var c: Chain := below - 1;
      if HasPrice(r, c) then before + [c] else before
  }

  lemma {:induction false} AvailableChainsAre(r: Request, below: nat)
    requires below <= CHAIN_COUNT
    ensures forall c: Chain :: c in AvailableChains(r, below) <==> c < below && HasPrice(r, c)
    ensures Distinct(AvailableChains(r, below))
  {
    if below > 0 {
      AvailableChainsAre(r, below - 1);
      var before := AvailableChains(r, below - 1);
      forall i | 0 <= i < |before| ensures before[i] < below - 1 {
        assert before[i] in before;
      }
    }
  }

  function PlansFor(r: Request, combinations: seq<seq<Chain>>): seq<Plan> {
    if combinations == [] then []
    else
      var before := PlansFor(r, combinations[..|combinations| - 1]);
      var plan := PlanForSubset(r, SetOf(combinations[|combinations| - 1]));
      if plan.Some? then before + [plan.value] else before
  }

  lemma {:induction false} PlansForMembers(r: Request, combinations: seq<seq<Chain>>)
    ensures forall p | p in PlansFor(r, combinations) :: Sound(r, p)
    ensures forall c | c in combinations && PlanForSubset(r, SetOf(c)).Some? ::
              PlanForSubset(r, SetOf(c)).value in PlansFor(r, combinations)
  {
    if combinations != [] {
      var init, last := combinations[..|combinations| - 1], combinations[|combinations| - 1];
      PlansForMembers(r, init);
      assert combinations == init + [last];
      if PlanForSubset(r, SetOf(last)).Some? { SubsetPlanIsFeasible(r, SetOf(last)); }
    }
  }

  function Min(a: nat, b: nat): nat { if a < b then a else b }

  function Candidates(r: Request): seq<Plan> {
    Unique(Sort(PlansFor(r, Combinations(AvailableChains(r, CHAIN_COUNT), Min(r.maxStores, 3)))))
  }

  function CalculatePlans(r: Request): seq<Plan> {
    if r.needs == [] then [] else Sort(Frontier(Candidates(r), Candidates(r)))
  }

  // ----- What the planner promises

  ghost predicate OnePerIdentity(plans: seq<Plan>) {
    && (forall p | p in plans :: multiset(plans)[p] == 1)
    && (forall p, q | p in plans && q in plans && Identity(p.assignments) == Identity(q.assignments) :: p == q)
  }

  lemma {:induction false} CountOfDistinct(plans: seq<Plan>, p: Plan)
    requires DistinctIdentities(plans)
    ensures multiset(plans)[p] <= 1
  {
    if plans != [] {
      var init, last := plans[..|plans| - 1], plans[|plans| - 1];
      hide Identity;
      CountOfDistinct(init, p);
      assert plans == init + [last];
      if p == last {
        assert p !in init;
        assert multiset(init)[p] == 0;
      }
    }
  }

  lemma DistinctIsOnePerIdentity(plans: seq<Plan>)
    requires DistinctIdentities(plans)
    ensures OnePerIdentity(plans)
  {
    hide Identity;
    forall p | p in plans ensures multiset(plans)[p] == 1 { CountOfDistinct(plans, p); }
    forall p, q | p in plans && q in plans && Identity(p.assignments) == Identity(q.assignments) ensures p == q {
      var i, j :| 0 <= i < |plans| && 0 <= j < |plans| && plans[i] == p && plans[j] == q;
    }
  }

  lemma {:induction false} FrontierIsPart(all: seq<Plan>, plans: seq<Plan>)
    ensures multiset(Frontier(all, plans)) <= multiset(plans)
  {
    if plans != [] {
      var init := plans[..|plans| - 1];
      FrontierIsPart(all, init);
      assert plans == init + [plans[|plans| - 1]];
    }
  }

  lemma PartIsOnePerIdentity(part: seq<Plan>, plans: seq<Plan>)
    requires OnePerIdentity(plans) && multiset(part) <= multiset(plans)
    ensures OnePerIdentity(part)
  {
    hide Identity;
    forall p | p in part ensures p in plans && multiset(part)[p] == 1 {
      assert p in multiset(part) && p in multiset(plans);
    }
  }

  /** No two calculated plans assign the same packages at the same prices. */
  lemma CalculatedPlansAreDistinct(r: Request)
    ensures OnePerIdentity(CalculatePlans(r))
  {
    if r.needs != [] {
      var candidates := Candidates(r);
      UniqueKeepsTheLast(Sort(PlansFor(r, Combinations(AvailableChains(r, CHAIN_COUNT), Min(r.maxStores, 3)))));
      DistinctIsOnePerIdentity(candidates);
      FrontierIsPart(candidates, candidates);
      SortSorts(Frontier(candidates, candidates));
      PartIsOnePerIdentity(CalculatePlans(r), candidates);
    }
  }

  lemma CandidatesAreSound(r: Request, p: Plan)
    requires p in Candidates(r)
    ensures Sound(r, p)
  {
    var plans := PlansFor(r, Combinations(AvailableChains(r, CHAIN_COUNT), Min(r.maxStores, 3)));
    UniqueKeepsIdentities(Sort(plans));
    SortMembers(plans, p);
    PlansForMembers(r, Combinations(AvailableChains(r, CHAIN_COUNT), Min(r.maxStores, 3)));
  }

  lemma ChainsAreAvailable(r: Request, assignments: seq<Assignment>)
    requires Feasible(r, assignments)
    ensures ChainsOf(assignments) <= SetOf(AvailableChains(r, CHAIN_COUNT)) && ChainsOf(assignments) != {}
  {
    AvailableChainsAre(r, CHAIN_COUNT);
    assert assignments[0].chain in ChainsOf(assignments);
    forall c | c in ChainsOf(assignments) ensures c in AvailableChains(r, CHAIN_COUNT) {
      var n :| 0 <= n < |assignments| && assignments[n].chain == c;
      var i := OfferOf(r, r.needs[n], assignments[n]);
      assert r.prices[i] in r.prices;
    }
  }

  /** Some candidate is no worse than a given feasible plan. */
  lemma CandidateNoWorse(r: Request, assignments: seq<Assignment>) returns (p: Plan)
    requires Feasible(r, assignments) && r.maxStores <= 3
    ensures p in Candidates(r)
    ensures p.totalOre <= Total(assignments) && |p.chains| <= |ChainsOf(assignments)|
    ensures p.substitutions == Substitutions(r.needs)
  {
    var available := AvailableChains(r, CHAIN_COUNT);
    var combinations := Combinations(available, Min(r.maxStores, 3));
    AvailableChainsAre(r, CHAIN_COUNT);
    ChainsAreAvailable(r, assignments);
    CombinationsAreComplete(available, Min(r.maxStores, 3), ChainsOf(assignments));
    var c :| c in combinations && SetOf(c) == ChainsOf(assignments);
    SubsetPlanIsBest(r, assignments);
    PlansForMembers(r, combinations);
    var best := PlanForSubset(r, SetOf(c)).value;
    var sorted := Sort(PlansFor(r, combinations));
    SortMembers(PlansFor(r, combinations), best);
    UniqueKeepsIdentities(sorted);
    assert HasIdentity(Unique(sorted), Identity(best.assignments));
    p :| p in Unique(sorted) && Identity(p.assignments) == Identity(best.assignments);
    SameIdentitySameMeasures(p.assignments, best.assignments);
    CandidatesAreSound(r, p);
    SubsetPlanIsFeasible(r, SetOf(c));
  }

  lemma CalculatedPlansAre(r: Request, p: Plan)
    requires r.needs != []
    ensures p in CalculatePlans(r) <==> p in Candidates(r) && Undominated(Candidates(r), p)
  {
    FrontierMembers(Candidates(r), Candidates(r));
    SortMembers(Frontier(Candidates(r), Candidates(r)), p);
  }

  /**
   Optimality: for every feasible way to cover the needs, one of the calculated
   plans costs no more, visits no more stores and has no more substitutions.
   */
  lemma EveryFeasiblePlanIsMatched(r: Request, assignments: seq<Assignment>) returns (best: Plan)
    requires Feasible(r, assignments) && r.maxStores <= 3
    ensures best in CalculatePlans(r)
    ensures best.totalOre <= Total(assignments) && |best.chains| <= |ChainsOf(assignments)|
    ensures best.substitutions <= Substitutions(r.needs)
  {
    var p := CandidateNoWorse(r, assignments);
    best := FrontierReaches(Candidates(r), p);
    CalculatedPlansAre(r, best);
  }

  /** A later plan visits more stores and costs less, or it ties on both. */
  ghost predicate Trades(a: Plan, b: Plan) {
    || (|a.chains| < |b.chains| && a.totalOre > b.totalOre)
    || (|a.chains| == |b.chains| && a.totalOre == b.totalOre)
  }

  lemma FrontierTrades(r: Request, plans: seq<Plan>)
    requires Sorted(plans) && forall p | p in plans :: Sound(r, p)
    requires forall p, q | p in plans && q in plans :: !Dominates(p, q)
    ensures forall i, j | 0 <= i < j < |plans| :: Trades(plans[i], plans[j])
  {
    forall i, j | 0 <= i < j < |plans| ensures Trades(plans[i], plans[j]) {
      var a, b := plans[i], plans[j];
      assert a in plans && b in plans;
      assert Sound(r, a) && Sound(r, b) && !Dominates(a, b) && !Dominates(b, a) && !Precedes(b, a);
      hide Sound;
      assert a.substitutions == b.substitutions;
    }
  }

  /** Soundness: the calculated plans are feasible, none dominates another, and every further store saves money. */
  lemma CalculatedPlansAreAFrontier(r: Request)
    ensures forall p | p in CalculatePlans(r) :: Sound(r, p)
    ensures forall p, q | p in CalculatePlans(r) && q in CalculatePlans(r) :: !Dominates(p, q)
    ensures var plans := CalculatePlans(r); forall i, j | 0 <= i < j < |plans| :: Trades(plans[i], plans[j])
  {
    if r.needs != [] {
      forall p | p in CalculatePlans(r) ensures Sound(r, p) && Undominated(Candidates(r), p) && p in Candidates(r) {
        CalculatedPlansAre(r, p);
        CandidatesAreSound(r, p);
      }
      SortSorts(Frontier(Candidates(r), Candidates(r)));
      FrontierTrades(r, CalculatePlans(r));
    }
  }

  /** There is a plan exactly when the needs can be covered at all. */
  lemma PlansExistIffFeasible(r: Request)
    requires r.maxStores <= 3
    ensures CalculatePlans(r) != [] <==> exists assignments :: Feasible(r, assignments)
  {
    CalculatedPlansAreAFrontier(r);
    if CalculatePlans(r) != [] {
      var p := CalculatePlans(r)[0];
      assert p in CalculatePlans(r) && Feasible(r, p.assignments);
    }
    if assignments :| Feasible(r, assignments) {
      var best := EveryFeasiblePlanIsMatched(r, assignments);
    }
  }

  // ----- The loops

  /** The candidates of a need within the chains, reduced to the best. */
  method ChooseAssignment(r: Request, need: Need, subset: set<Chain>) returns (best: Option<Assignment>)
    ensures best == Cheapest(r, need, r.prices, subset)
  {
    best := None;
    for i := 0 to |r.prices|
      invariant best == Cheapest(r, need, r.prices[..i], subset)
    {
      assert r.prices[..i + 1][..i] == r.prices[..i];
      var price := r.prices[i];
      if price.chain in subset {
        var offer := Offer(r, need, price);
        if offer.Some? && (best.None? || Better(offer.value, best.value)) {
          best := offer;
        }
      }
    }
    assert r.prices[..|r.prices|] == r.prices;
  }

  lemma {:induction false} NoPlanWithoutPrefix(r: Request, needs: seq<Need>, n: nat, subset: set<Chain>)
    requires n <= |needs| && AssignNeeds(r, needs[..n], subset).None?
    ensures AssignNeeds(r, needs, subset).None?
    decreases |needs|
  {
    if n == |needs| {
      assert needs[..n] == needs;
    } else {
      assert needs[..|needs| - 1][..n] == needs[..n];
      NoPlanWithoutPrefix(r, needs[..|needs| - 1], n, subset);
    }
  }

  method AssignSubset(r: Request, subset: set<Chain>) returns (covering: Option<seq<Assignment>>, substitutions: nat)
    ensures covering == AssignNeeds(r, r.needs, subset)
    ensures covering.Some? ==> substitutions == Substitutions(r.needs)
  {
    var assignments: seq<Assignment> := [];
    substitutions := 0;
    for n := 0 to |r.needs|
      invariant AssignNeeds(r, r.needs[..n], subset) == Some(assignments)
      invariant substitutions == Substitutions(r.needs[..n])
    {
      assert r.needs[..n + 1][..n] == r.needs[..n];
      var chosen := ChooseAssignment(r, r.needs[n], subset);
      if chosen.None? {
        NoPlanWithoutPrefix(r, r.needs, n + 1, subset);
        return None, 0;
      }
      assignments := assignments + [chosen.value];
      if r.needs[n].rule.Some? && !r.needs[n].rule.value.exact {
        substitutions := substitutions + 1;
      }
    }
    assert r.needs[..|r.needs|] == r.needs;
    covering := Some(assignments);
  }

  /** The recursive walk that pushes every combination onto `result`. */
  method VisitInto(chains: seq<Chain>, start: nat, current: seq<Chain>, maximum: nat, result: seq<seq<Chain>>)
    returns (visited: seq<seq<Chain>>)
    requires start <= |chains|
    ensures visited == result + Visit(chains, start, current, maximum)
    decreases |chains| - start
  {
    visited := result;
    if current != [] {
      visited := visited + [current];
    }
    if |current| == maximum {
      assert visited == result + Visit(chains, start, current, maximum);
      return;
    }
    ghost var front := visited;
    for index := start to |chains|
      invariant visited + VisitFrom(chains, index, current, maximum)
                == front + VisitFrom(chains, start, current, maximum)
    {
      ghost var before, rest := visited, VisitFrom(chains, index + 1, current, maximum);
      ghost var deeper := Visit(chains, index + 1, current + [chains[index]], maximum);
      visited := VisitInto(chains, index + 1, current + [chains[index]], maximum, visited);
      assert before + (deeper + rest) == visited + rest;
    }
    ghost var own := if current == [] then [] else [current];
    assert front == result + own;
    assert visited + [] == visited;
    assert (result + own) + VisitFrom(chains, start, current, maximum)
             == result + (own + VisitFrom(chains, start, current, maximum));
  }

  method PlansOfCombinations(r: Request, combinations: seq<seq<Chain>>) returns (plans: seq<Plan>)
    ensures plans == PlansFor(r, combinations)
  {
    plans := [];
    for i := 0 to |combinations|
      invariant plans == PlansFor(r, combinations[..i])
    {
      assert combinations[..i + 1][..i] == combinations[..i];
      var subset := SetOf(combinations[i]);
      var covering, substitutions := AssignSubset(r, subset);
      if covering.Some? {
        var plan := PlanOf(r, covering.value);
        if plan.Some? {
          plans := plans + [plan.value];
        }
      }
    }
    assert combinations[..|combinations|] == combinations;
  }

  method UniqueAssignments(plans: seq<Plan>) returns (kept: seq<Plan>)
    ensures kept == Unique(plans)
  {
    kept := [];
    for i := 0 to |plans|
      invariant kept == Unique(plans[..i])
    {
      assert plans[..i + 1][..i] == plans[..i];
      var slot := Slot(kept, Identity(plans[i].assignments));
      if slot == |kept| {
        kept := kept + [plans[i]];
      } else {
        kept := kept[slot := plans[i]];
      }
    }
    assert plans[..|plans|] == plans;
  }

  method FilterDominated(candidates: seq<Plan>) returns (kept: seq<Plan>)
    ensures kept == Frontier(candidates, candidates)
  {
    kept := [];
    for i := 0 to |candidates|
      invariant kept == Frontier(candidates, candidates[..i])
    {
      assert candidates[..i + 1][..i] == candidates[..i];
      if forall q | q in candidates :: !Dominates(q, candidates[i]) {
        kept := kept + [candidates[i]];
      }
    }
    assert candidates[..|candidates|] == candidates;
  }

  /** The whole calculation, with what it promises. */
  method Calculate(r: Request) returns (plans: seq<Plan>)
    ensures plans == CalculatePlans(r)
    ensures forall p | p in plans :: Sound(r, p)
    ensures forall p, q | p in plans && q in plans :: !Dominates(p, q)
    ensures OnePerIdentity(plans)
  {
    CalculatedPlansAreAFrontier(r);
    CalculatedPlansAreDistinct(r);
    if r.needs == [] {
      return [];
    }
    var combinations := VisitInto(AvailableChains(r, CHAIN_COUNT), 0, [], Min(r.maxStores, 3), []);
    assert combinations == Combinations(AvailableChains(r, CHAIN_COUNT), Min(r.maxStores, 3));
    var all := PlansOfCombinations(r, combinations);
    var candidates := UniqueAssignments(Sort(all));
    var frontier := FilterDominated(candidates);
    plans := Sort(frontier);
  }
}
