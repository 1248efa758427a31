/** Price rules: applying one rule, and searching them by priority. */
module Pricing {
  import opened Options
  import opened Tables
  import opened Collections
  import Sorting
  import Clock

  datatype PricingType = FlatRate | DistanceBased | StationBased | TimeBased | Dynamic

  datatype RoutePrice = RoutePrice(route: Id, basePrice: real)

  datatype StationPrice = StationPrice(rule: Id, route: Id, origin: Id, destination: Id, price: real,
                                       stationCount: int, deleted: bool)

  /** A rule with the route and station prices loaded for the trip at hand. */
  datatype Rule = Rule(id: Id, kind: PricingType, active: bool, deleted: bool,
                       validFrom: Option<int>, validUntil: Option<int>,
                       priority: int, createdAt: int, basePrice: Option<real>, pricePerKm: Option<real>,
                       minPrice: Option<real>, maxPrice: Option<real>, peakMultiplier: Option<real>,
                       peakStart: Option<string>, peakEnd: Option<string>,
                       routePrices: seq<RoutePrice>, stationPrices: seq<StationPrice>)

  /**
   What pricing reads of a trip; `departs` is its departure, or the present if it has none, with its local
   time of day.
   */
  datatype PricedTrip = PricedTrip(route: Option<Id>, distanceKm: Option<real>, stations: seq<Id>,
                                   availableSeats: Option<int>,
                                   departs: int, hour: nat, minute: nat)

  datatype Price = Price(basePrice: real, finalPrice: real, rule: Id)

  /** What applying a rule comes to: a price, null, or an exception. */
  datatype Quote = Priced(price: Price) | Null | Thrown

  function FindFirst<T>(s: seq<T>, p: T -> bool): Option<T> {
    if s == [] then None else if p(s[0]) then Some(s[0]) else FindFirst(s[1..], p)
  }

  function IndexOf(s: seq<Id>, x: Id): Option<nat> {
    if s == [] then None
    else if s[0] == x then Some(0)
    else
      var rest := IndexOf(s[1..], x);
      if rest.None? then None else Some(rest.value + 1)
  }

  function PriceOf(route: Option<Id>): RoutePrice -> bool {
    (rp: RoutePrice) => Some(rp.route) == route
  }

  function ApplyFlatRate(rule: Rule, trip: PricedTrip): Quote {
    var special := FindFirst(rule.routePrices, PriceOf(trip.route));
    if special.Some? then Priced(Price(special.value.basePrice, special.value.basePrice, rule.id))
    else if rule.basePrice.Some? then Priced(Price(rule.basePrice.value, rule.basePrice.value, rule.id))
    else Thrown
  }

  function ApplyDistanceBased(rule: Rule, trip: PricedTrip): Quote {
    if trip.distanceKm.None? then Thrown
    else
      var byDistance := trip.distanceKm.value * rule.pricePerKm.Or(0.0);
      var raised := if rule.minPrice.Some? && byDistance < rule.minPrice.value then rule.minPrice.value else byDistance;
      var price := if rule.maxPrice.Some? && raised > rule.maxPrice.value then rule.maxPrice.value else raised;
      Priced(Price(price, price, rule.id))
  }

  function Direct(origin: Id, destination: Id): StationPrice -> bool {
    (sp: StationPrice) => sp.origin == origin && sp.destination == destination
  }

  function ForRoute(route: Option<Id>): StationPrice -> bool {
    (sp: StationPrice) => Some(sp.route) == route
  }

  function CoversCount(count: int): StationPrice -> bool {
    (sp: StationPrice) => sp.stationCount >= count
  }

  predicate ByCount(a: StationPrice, b: StationPrice) {
    a.stationCount <= b.stationCount
  }

  /** The price tiers of the route, sorted by station count. */
  function Tiers(prices: seq<StationPrice>, route: Option<Id>): seq<StationPrice> {
    Sorting.Sort(Filter(prices, ForRoute(route)), ByCount)
  }

  function Distance(i: nat, j: nat): nat {
    if i <= j then j - i else i - j
  }

  function ApplyStationBased(rule: Rule, trip: PricedTrip, origin: Id, destination: Id): Quote {
    var direct := FindFirst(rule.stationPrices, Direct(origin, destination));
    if direct.Some? then Priced(Price(direct.value.price, direct.value.price, rule.id))
    else
      var i, j := IndexOf(trip.stations, origin), IndexOf(trip.stations, destination);
      if i.None? || j.None? then Thrown
      else
        var tiers := Tiers(rule.stationPrices, trip.route);
        var fitting := FindFirst(tiers, CoversCount(Distance(i.value, j.value)));
        if fitting.Some? then Priced(Price(fitting.value.price, fitting.value.price, rule.id))
        else if tiers == [] then Thrown
        else Priced(Price(tiers[|tiers| - 1].price, tiers[|tiers| - 1].price, rule.id))
  }

  function ApplyTimeBased(rule: Rule, trip: PricedTrip): Quote {
    if rule.basePrice.None? || rule.peakStart.None? || rule.peakEnd.None? then Thrown
    else
      var peak := Clock.IsTimeBetween(Clock.TimeText(trip.hour, trip.minute), rule.peakStart.value, rule.peakEnd.value);
      var base := rule.basePrice.value;
      Priced(Price(base, if peak && rule.peakMultiplier.Some? then base * rule.peakMultiplier.value else base, rule.id))
  }

  /** The bus is not loaded with the trip, so 50 seats are assumed; no seat left reads as all seats left. */
  function ApplyDynamic(rule: Rule, trip: PricedTrip): Quote {
    var free := if trip.availableSeats.Or(0) == 0 then 50 else trip.availableSeats.value;
    var occupancy := (50 - free) as real / 50.0;
    var multiplier :=
      if occupancy > 0.8 then 1.5 else if occupancy > 0.6 then 1.3 else if occupancy > 0.4 then 1.1 else 1.0;
    var base := rule.basePrice.Or(0.0);
    Priced(Price(base, base * multiplier, rule.id))
  }

  function ApplyRule(rule: Rule, trip: PricedTrip, origin: Option<Id>, destination: Option<Id>): Quote {
    match rule.kind
    case FlatRate => ApplyFlatRate(rule, trip)
    case DistanceBased => ApplyDistanceBased(rule, trip)
    case StationBased =>
      if origin.None? || destination.None? then Null
      else ApplyStationBased(rule, trip, origin.value, destination.value)
    case TimeBased => ApplyTimeBased(rule, trip)
    case Dynamic => ApplyDynamic(rule, trip)
  }

  predicate Applicable(rule: Rule, at: int) {
    && rule.active && !rule.deleted
    && (rule.validFrom.Some? ==> rule.validFrom.value <= at)
    && (rule.validUntil.Some? ==> at <= rule.validUntil.value)
  }

  function ApplicableAt(at: int): Rule -> bool {
    (rule: Rule) => Applicable(rule, at)
  }

  /** Ordering of the query: priority descending, then creation descending. */
  predicate ByRank(a: Rule, b: Rule) {
    a.priority > b.priority || (a.priority == b.priority && a.createdAt >= b.createdAt)
  }

  datatype Search = Found(price: Price) | NoRules | NoneApplies

  /** The first price in a list of rules. */
  function FirstPrice(rules: seq<Rule>, trip: PricedTrip, origin: Option<Id>, destination: Option<Id>): Search {
    if rules == [] then NoneApplies
    else
      var quote := ApplyRule(rules[0], trip, origin, destination);
      if quote.Priced? then Found(quote.price) else FirstPrice(rules[1..], trip, origin, destination)
  }

  function Ranked(rules: seq<Rule>, at: int): seq<Rule> {
    Sorting.Sort(Filter(rules, ApplicableAt(at)), ByRank)
  }

  function TripPrice(rules: seq<Rule>, trip: PricedTrip, origin: Option<Id>, destination: Option<Id>): Search {
    var ranked := Ranked(rules, trip.departs);
    if ranked == [] then NoRules else FirstPrice(ranked, trip, origin, destination)
  }

  /** The search loop, which carries on after a null price or an exception. */
  method CalculateTripPrice(rules: seq<Rule>, trip: PricedTrip, origin: Option<Id>, destination: Option<Id>)
    returns (r: Search)
    ensures r == TripPrice(rules, trip, origin, destination)
  {
    var ranked := Ranked(rules, trip.departs);
    if |ranked| == 0 { return NoRules; }
    for k := 0 to |ranked|
      invariant FirstPrice(ranked, trip, origin, destination) == FirstPrice(ranked[k..], trip, origin, destination)
    {
      var quote := ApplyRule(ranked[k], trip, origin, destination);
      if quote.Priced? {
        return Found(quote.price);
      }
    }
    return NoneApplies;
  }

  lemma {:induction false} FirstPriceIsFirst(rules: seq<Rule>, trip: PricedTrip,
                                             origin: Option<Id>, destination: Option<Id>)
    ensures match FirstPrice(rules, trip, origin, destination)
            case Found(price) =>
              exists k: nat :: k < |rules| && ApplyRule(rules[k], trip, origin, destination) == Priced(price)
                && forall i: nat :: i < k ==> !ApplyRule(rules[i], trip, origin, destination).Priced?
            case NoneApplies => forall i: nat :: i < |rules| ==> !ApplyRule(rules[i], trip, origin, destination).Priced?
            case NoRules => false
  {
    if rules != [] && !ApplyRule(rules[0], trip, origin, destination).Priced? {
      var rest := rules[1..];
      FirstPriceIsFirst(rest, trip, origin, destination);
      match FirstPrice(rest, trip, origin, destination) {
        case Found(price) =>
          var k: nat :| k < |rest| && ApplyRule(rest[k], trip, origin, destination) == Priced(price)
            && forall i: nat :: i < k ==> !ApplyRule(rest[i], trip, origin, destination).Priced?;
          assert rules[k + 1] == rest[k];
          forall i: nat | i < k + 1 ensures !ApplyRule(rules[i], trip, origin, destination).Priced? {
            if i > 0 { assert rules[i] == rest[i - 1]; }
          }
        case NoneApplies =>
          forall i: nat | i < |rules| ensures !ApplyRule(rules[i], trip, origin, destination).Priced? {
            if i > 0 { assert rules[i] == rest[i - 1]; }
          }
      }
    }
  }

  /** The rule is switched on and its validity, open where no bound is set, contains the time. */
  ghost predicate InForce(rule: Rule, at: int) {
    rule.active && !rule.deleted && rule.validFrom.Or(at) <= at <= rule.validUntil.Or(at)
  }

  /** The rule is in force when the trip departs and gives a price. */
  ghost predicate Gives(rule: Rule, trip: PricedTrip, origin: Option<Id>, destination: Option<Id>) {
    InForce(rule, trip.departs) && ApplyRule(rule, trip, origin, destination).Priced?
  }

  lemma RankedMember(rules: seq<Rule>, at: int, x: Rule)
    ensures x in Ranked(rules, at) <==> x in rules && InForce(x, at)
  {
    Sorting.SortMember(Filter(rules, ApplicableAt(at)), ByRank, x);
    FilterMember(rules, ApplicableAt(at), x);
  }

  lemma RankedInOrder(rules: seq<Rule>, at: int, i: nat, j: nat)
    requires i < j < |Ranked(rules, at)|
    ensures ByRank(Ranked(rules, at)[i], Ranked(rules, at)[j])
  {
    assert Sorting.TotalPreorder(ByRank);
    Sorting.SortSorted(Filter(rules, ApplicableAt(at)), ByRank);
  }

  /** Of higher priority or, at the same priority, not created earlier. */
  ghost predicate Outranks(a: Rule, b: Rule) {
    a.priority >= b.priority && (a.priority == b.priority ==> a.createdAt >= b.createdAt)
  }

  /** No rule that gives a price ranks above this one. */
  ghost predicate Best(rules: seq<Rule>, best: Rule, trip: PricedTrip, origin: Option<Id>, destination: Option<Id>) {
    && best in rules && Gives(best, trip, origin, destination)
    && forall x :: x in rules && Gives(x, trip, origin, destination) ==> Outranks(best, x)
  }

  lemma FirstRankedIsBest(rules: seq<Rule>, trip: PricedTrip, origin: Option<Id>, destination: Option<Id>, k: nat)
    requires k < |Ranked(rules, trip.departs)|
    requires ApplyRule(Ranked(rules, trip.departs)[k], trip, origin, destination).Priced?
    requires forall i: nat :: i < k ==> !ApplyRule(Ranked(rules, trip.departs)[i], trip, origin, destination).Priced?
    ensures Best(rules, Ranked(rules, trip.departs)[k], trip, origin, destination)
  {
    var ranked := Ranked(rules, trip.departs);
    RankedMember(rules, trip.departs, ranked[k]);
    forall x | x in rules && Gives(x, trip, origin, destination) ensures Outranks(ranked[k], x) {
      RankedMember(rules, trip.departs, x);
      var j :| 0 <= j < |ranked| && ranked[j] == x;
      if k < j { RankedInOrder(rules, trip.departs, k, j); }
    }
  }

  /**
   The price found is that of a rule ranking at least as high as every other rule that gives a price;
   none is found exactly when no rule gives one, and the failure says whether any rule applied.
   */
  lemma BestRuleWins(rules: seq<Rule>, trip: PricedTrip, origin: Option<Id>, destination: Option<Id>)
    ensures match TripPrice(rules, trip, origin, destination)
            case Found(price) =>
              exists best :: Best(rules, best, trip, origin, destination)
                && ApplyRule(best, trip, origin, destination) == Priced(price)
            case NoRules => forall x :: x in rules ==> !InForce(x, trip.departs)
            case NoneApplies =>
              (exists x :: x in rules && InForce(x, trip.departs))
              && forall x :: x in rules ==> !Gives(x, trip, origin, destination)
  {
    var ranked := Ranked(rules, trip.departs);
    forall x ensures x in ranked <==> x in rules && InForce(x, trip.departs) {
      RankedMember(rules, trip.departs, x);
    }
    FirstPriceIsFirst(ranked, trip, origin, destination);
    match TripPrice(rules, trip, origin, destination) {
      case Found(price) =>
        var k: nat :| k < |ranked| && ApplyRule(ranked[k], trip, origin, destination) == Priced(price)
          && forall i: nat :: i < k ==> !ApplyRule(ranked[i], trip, origin, destination).Priced?;
        FirstRankedIsBest(rules, trip, origin, destination, k);
      case NoRules =>
      case NoneApplies =>
        assert ranked[0] in ranked;
        forall x | x in rules ensures !Gives(x, trip, origin, destination) {
          if InForce(x, trip.departs) {
            var j :| 0 <= j < |ranked| && ranked[j] == x;
          }
        }
    }
  }

  // ----- single rules

  /**
   A distance rule needs the length of the route. It charges the length times its rate, but the minimum below
   that and the maximum above it; with limits in the wrong order always the maximum.
   */
  lemma DistancePriceLimits(rule: Rule, trip: PricedTrip, origin: Option<Id>, destination: Option<Id>)
    requires rule.kind == DistanceBased
    ensures var quote := ApplyRule(rule, trip, origin, destination);
            if trip.distanceKm.None? then quote == Thrown
            else
              var km := trip.distanceKm.value * (if rule.pricePerKm.Some? then rule.pricePerKm.value else 0.0);
              && quote.Priced? && quote.price.rule == rule.id && quote.price.basePrice == quote.price.finalPrice
              && var price := quote.price.finalPrice;
                 && (rule.maxPrice.Some? ==> price <= rule.maxPrice.value)
                 && (rule.minPrice.Some? ==>
                       (rule.minPrice.value <= price <==>
                          rule.maxPrice.Some? ==> rule.minPrice.value <= rule.maxPrice.value))
                 && ((rule.minPrice.Some? && km < rule.minPrice.value)
                     || (rule.maxPrice.Some? && rule.maxPrice.value < km) || price == km)
                 && (rule.maxPrice.Some? && rule.maxPrice.value < km ==> price == rule.maxPrice.value)
                 && (rule.minPrice.Some? && km < rule.minPrice.value ==>
                       price == if rule.maxPrice.Some? && rule.maxPrice.value < rule.minPrice.value
                                then rule.maxPrice.value else rule.minPrice.value)
  {
  }

  /** Some element is the first to satisfy the condition, and it is the one found. */
  lemma {:induction false} FindFirstFinds<T>(s: seq<T>, p: T -> bool)
    ensures match FindFirst(s, p)
            case None => forall k: nat :: k < |s| ==> !p(s[k])
            case Some(x) => exists k: nat :: k < |s| && s[k] == x && p(x) && forall l: nat :: l < k ==> !p(s[l])
  {
    if s != [] && !p(s[0]) {
      var rest := s[1..];
      FindFirstFinds(rest, p);
      if FindFirst(rest, p).Some? {
        var x := FindFirst(rest, p).value;
        var k: nat :| k < |rest| && rest[k] == x && p(x) && forall l: nat :: l < k ==> !p(rest[l]);
        forall l: nat | l < k + 1 ensures !p(s[l]) {
          if l > 0 { assert rest[l - 1] == s[l]; }
        }
        assert s[k + 1] == x;
      } else {
        forall k: nat | k < |s| ensures !p(s[k]) {
          if k > 0 { assert rest[k - 1] == s[k]; }
        }
      }
    }
  }

  /** The first price the rule has for the trip's route. */
  ghost predicate FirstForRoute(rule: Rule, trip: PricedTrip, k: nat) {
    && k < |rule.routePrices| && Some(rule.routePrices[k].route) == trip.route
    && forall l: nat :: l < k ==> Some(rule.routePrices[l].route) != trip.route
  }

  /**
   A flat rate fails exactly when it has neither a price for the trip's route nor a general one; a route
   price wins.
   */
  lemma FlatRatePrices(rule: Rule, trip: PricedTrip, origin: Option<Id>, destination: Option<Id>)
    requires rule.kind == FlatRate
    ensures var quote := ApplyRule(rule, trip, origin, destination);
            var special := exists rp :: rp in rule.routePrices && Some(rp.route) == trip.route;
            && (quote == Thrown <==> !special && rule.basePrice.None?)
            && (special ==>
                  exists k: nat ::
                    && FirstForRoute(rule, trip, k)
                    && quote == Priced(Price(rule.routePrices[k].basePrice, rule.routePrices[k].basePrice, rule.id)))
            && (!special && rule.basePrice.Some? ==>
                  quote == Priced(Price(rule.basePrice.value, rule.basePrice.value, rule.id)))
  {
    FindFirstFinds(rule.routePrices, PriceOf(trip.route));
    if FindFirst(rule.routePrices, PriceOf(trip.route)).Some? {
      var special := FindFirst(rule.routePrices, PriceOf(trip.route)).value;
      var k: nat :| k < |rule.routePrices| && rule.routePrices[k] == special
        && PriceOf(trip.route)(rule.routePrices[k])
        && forall l: nat :: l < k ==> !PriceOf(trip.route)(rule.routePrices[l]);
      assert FirstForRoute(rule, trip, k);
    }
  }

  /**
   A peak rule needs a base price and both bounds of its window. It multiplies the base price, if it has a
   multiplier, exactly for departures in the window.
   */
  lemma PeakRulePrice(rule: Rule, trip: PricedTrip, origin: Option<Id>, destination: Option<Id>)
    requires rule.kind == TimeBased
    ensures var quote := ApplyRule(rule, trip, origin, destination);
            if rule.basePrice.None? || rule.peakStart.None? || rule.peakEnd.None? then quote == Thrown
            else
              var base := rule.basePrice.value;
              var peak := Clock.IsPeakHour(trip.hour, trip.minute, rule.peakStart.value, rule.peakEnd.value);
              quote == Priced(Price(base, if peak && rule.peakMultiplier.Some? then base * rule.peakMultiplier.value
                                          else base, rule.id))
  {
    if rule.peakStart.Some? && rule.peakEnd.Some? {
      Clock.PeakTestsAgree(trip.hour, trip.minute, rule.peakStart.value, rule.peakEnd.value);
    }
  }

  /** A peak rule multiplies its base price exactly for departures in its window, counted round the clock. */
  lemma PeakPrice(rule: Rule, trip: PricedTrip, origin: Option<Id>, destination: Option<Id>)
    requires rule.kind == TimeBased && trip.hour < 24 && trip.minute < 60
    requires rule.basePrice.Some? && rule.peakMultiplier.Some? && rule.peakStart.Some? && rule.peakEnd.Some?
    requires Clock.TimeToNumber(rule.peakStart.value).Some?
             && 0 <= Clock.TimeToNumber(rule.peakStart.value).value < 1440
    requires Clock.TimeToNumber(rule.peakEnd.value).Some? && 0 <= Clock.TimeToNumber(rule.peakEnd.value).value < 1440
    ensures var t := trip.hour * 60 + trip.minute;
            var s, e := Clock.TimeToNumber(rule.peakStart.value).value, Clock.TimeToNumber(rule.peakEnd.value).value;
            var base := rule.basePrice.value;
            ApplyRule(rule, trip, origin, destination) ==
            Priced(Price(base,
                         if (t - s) % 1440 <= (e - s) % 1440 then base * rule.peakMultiplier.value else base, rule.id))
  {
    Clock.PeakIsCircular(trip.hour, trip.minute, rule.peakStart.value, rule.peakEnd.value);
  }

  /** A dynamic rule adds half below 10 free seats, 30% below 20 and 10% below 30; no seat or no count reads as 50. */
  lemma DynamicPrice(rule: Rule, trip: PricedTrip, origin: Option<Id>, destination: Option<Id>)
    requires rule.kind == Dynamic
    ensures var free := if trip.availableSeats in {None, Some(0)} then 50 else trip.availableSeats.value;
            var base := if rule.basePrice.Some? then rule.basePrice.value else 0.0;
            ApplyRule(rule, trip, origin, destination) ==
            Priced(Price(base, base * (if free < 10 then 1.5 else if free < 20 then 1.3
                                       else if free < 30 then 1.1 else 1.0), rule.id))
  {
  }

  /**
   Fewer free seats do not lower the dynamic price, except that a full bus is priced like one with 50
   free seats: the price falls exactly when the bus fills up from between 1 and 29 free seats.
   */
  lemma DynamicPriceBySeats(rule: Rule, trip: PricedTrip, origin: Option<Id>, destination: Option<Id>,
                            fewer: int, more: int)
    requires rule.kind == Dynamic && rule.basePrice.Or(0.0) >= 0.0 && 0 <= fewer <= more
    ensures var quoteFewer := ApplyRule(rule, trip.(availableSeats := Some(fewer)), origin, destination);
            var quoteMore := ApplyRule(rule, trip.(availableSeats := Some(more)), origin, destination);
            && quoteFewer.Priced? && quoteMore.Priced?
            && (quoteFewer.price.finalPrice >= quoteMore.price.finalPrice <==>
                  fewer > 0 || more == 0 || more >= 30 || rule.basePrice.Or(0.0) == 0.0)
            && (fewer == 0 ==> quoteFewer == ApplyRule(rule, trip.(availableSeats := Some(50)), origin, destination))
  {
    var base := rule.basePrice.Or(0.0);
    assert base * 1.5 >= base * 1.3 >= base * 1.1 >= base * 1.0;
  }

  /** The last five seats sold, the price of a trip at 100 falls from 150 back to 100. */
  lemma FullBusIsCheaper(rule: Rule, trip: PricedTrip, origin: Option<Id>, destination: Option<Id>)
    requires rule.kind == Dynamic && rule.basePrice == Some(100.0)
    ensures ApplyRule(rule, trip.(availableSeats := Some(5)), origin, destination) ==
            Priced(Price(100.0, 150.0, rule.id))
    ensures ApplyRule(rule, trip.(availableSeats := Some(0)), origin, destination) ==
            Priced(Price(100.0, 100.0, rule.id))
  {
  }
}
