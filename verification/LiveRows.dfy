/** The tenant's default price rule, and the current price of a trip. */
module LiveRows {
  import opened Options
  import opened Tables
  import opened Collections

  datatype RuleRow = RuleRow(tenant: Id, isDefault: bool, deleted: bool)

  datatype Change =
    | CreateRule(tenant: Id, isDefault: bool)
    | UpdateRule(id: Id, newDefault: Option<bool>)
    | DeleteRule(id: Id)

  /** The bulk update: no live rule of the tenant but the one excepted stays default. */
  function Unset(rules: seq<RuleRow>, tenant: Id, except: Option<Id>): (r: seq<RuleRow>)
    ensures |r| == |rules|
  {
    seq(|rules|, i requires 0 <= i < |rules| =>
      if rules[i].tenant == tenant && !rules[i].deleted && except != Some(i)
      then rules[i].(isDefault := false) else rules[i])
  }

  /** An update or deletion of a missing rule throws and changes nothing. */
  function Changed(rules: seq<RuleRow>, c: Change): seq<RuleRow> {
    match c
    case CreateRule(tenant, isDefault) =>
      (if isDefault then Unset(rules, tenant, None) else rules) + [RuleRow(tenant, isDefault, false)]
    case UpdateRule(id, isDefault) =>
      if id >= |rules| then rules
      else
        var others := if isDefault == Some(true) then Unset(rules, rules[id].tenant, Some(id)) else rules;
        others[id := others[id].(isDefault := isDefault.Or(others[id].isDefault))]
    case DeleteRule(id) => if id >= |rules| then rules else rules[id := rules[id].(deleted := true)]
  }

  function ChangedRun(rules: seq<RuleRow>, changes: seq<Change>): seq<RuleRow> {
    if changes == [] then rules else Changed(ChangedRun(rules, changes[..|changes| - 1]), changes[|changes| - 1])
  }

  predicate LiveDefault(r: RuleRow, tenant: Id) {
    r.tenant == tenant && r.isDefault && !r.deleted
  }

  ghost predicate OneDefaultFor(rules: seq<RuleRow>, tenant: Id) {
    forall i: nat, j: nat | i < j < |rules| :: !(LiveDefault(rules[i], tenant) && LiveDefault(rules[j], tenant))
  }

  /** Each tenant has at most one live default rule. */
  ghost predicate OneDefault(rules: seq<RuleRow>) {
    forall tenant: Id :: OneDefaultFor(rules, tenant)
  }

  /** The call names a rule of the tenant as default. */
  predicate NamesDefault(rules: seq<RuleRow>, c: Change, tenant: Id) {
    match c
    case CreateRule(owner, isDefault) => owner == tenant && isDefault
    case UpdateRule(id, isDefault) => id < |rules| && rules[id].tenant == tenant && isDefault == Some(true)
    case DeleteRule(_) => false
  }

  lemma OneDefaultStep(rules: seq<RuleRow>, c: Change, tenant: Id)
    requires OneDefaultFor(rules, tenant) || NamesDefault(rules, c, tenant)
    ensures OneDefaultFor(Changed(rules, c), tenant)
  {
  }

  lemma OneDefaultKept(rules: seq<RuleRow>, c: Change)
    requires OneDefault(rules)
    ensures OneDefault(Changed(rules, c))
  {
    forall tenant: Id ensures OneDefaultFor(Changed(rules, c), tenant) {
      OneDefaultStep(rules, c, tenant);
    }
  }

  /**
   Once a default rule was named for a tenant, and in any case if it had no more than one before, it has
   at most one live default rule after every run of creating, updating and deleting rules.
   */
  lemma {:induction false} OneDefaultRun(rules: seq<RuleRow>, changes: seq<Change>, tenant: Id)
    requires || OneDefaultFor(rules, tenant)
             || exists k: nat | k < |changes| :: NamesDefault(ChangedRun(rules, changes[..k]), changes[k], tenant)
    ensures OneDefaultFor(ChangedRun(rules, changes), tenant)
  {
    if changes != [] {
      var front, last := changes[..|changes| - 1], changes[|changes| - 1];
      if !NamesDefault(ChangedRun(rules, front), last, tenant) {
        if !OneDefaultFor(rules, tenant) {
          var k: nat :| k < |changes| && NamesDefault(ChangedRun(rules, changes[..k]), changes[k], tenant);
          assert changes[..k] == front[..k] && changes[k] == front[k];
        }
        OneDefaultRun(rules, front, tenant);
      }
      OneDefaultStep(ChangedRun(rules, front), last, tenant);
    }
  }

  /**
   Marking a live rule as default makes it its tenant's only live default, and leaves other tenants' and
   deleted rules alone.
   */
  lemma DefaultReplaces(rules: seq<RuleRow>, id: Id, i: Id)
    requires id < |rules| && !rules[id].deleted && i < |rules|
    ensures var after := Changed(rules, UpdateRule(id, Some(true)));
            && |after| == |rules|
            && (LiveDefault(after[i], rules[id].tenant) <==> i == id)
            && (rules[i].tenant != rules[id].tenant || rules[i].deleted ==> after[i] == rules[i])
  {
  }

  /**
   Creating a rule adds a live row with the flag asked for; as default it takes the flag off the tenant's
   other live rules.
   */
  lemma RuleCreated(rules: seq<RuleRow>, tenant: Id, isDefault: bool)
    ensures var after := Changed(rules, CreateRule(tenant, isDefault));
            && |after| == |rules| + 1 && after[|rules|] == RuleRow(tenant, isDefault, false)
            && forall i: nat | i < |rules| ::
                 after[i] == if isDefault && rules[i].tenant == tenant && !rules[i].deleted
                             then RuleRow(tenant, false, false) else rules[i]
  {
  }

  /**
   Updating a rule that exists sets its flag if one is given, and taking it as default takes the flag off the
   tenant's other live rules; without a rule of this id nothing changes.
   */
  lemma RuleUpdated(rules: seq<RuleRow>, id: Id, newDefault: Option<bool>)
    ensures var after := Changed(rules, UpdateRule(id, newDefault));
            && |after| == |rules|
            && forall i: nat | i < |rules| ::
                 after[i] ==
                 if i == id && newDefault.Some? then RuleRow(rules[i].tenant, newDefault.value, rules[i].deleted)
                 else if i != id && id < |rules| && newDefault == Some(true) && rules[i].tenant == rules[id].tenant
                         && !rules[i].deleted then RuleRow(rules[i].tenant, false, false)
                 else rules[i]
  {
  }

  /** Deleting a rule that exists flags it; nothing else changes. */
  lemma RuleDeleted(rules: seq<RuleRow>, id: Id)
    ensures var after := Changed(rules, DeleteRule(id));
            && |after| == |rules|
            && forall i: nat | i < |rules| ::
                 after[i] == if i == id then RuleRow(rules[i].tenant, rules[i].isDefault, true) else rules[i]
  {
  }

  // ----- trip prices

  datatype TripPrice = TripPrice(trip: Id, rule: Option<Id>, basePrice: real, finalPrice: real, deleted: bool)

  /** The bulk deletion of a trip's prices. */
  function Retired(prices: seq<TripPrice>, trip: Id): (r: seq<TripPrice>)
    ensures |r| == |prices|
  {
    seq(|prices|, i requires 0 <= i < |prices| =>
      if prices[i].trip == trip then prices[i].(deleted := true) else prices[i])
  }

  /** Every price of the trip is deleted, then the new one created. */
  function SetTripPricing(prices: seq<TripPrice>, p: TripPrice): seq<TripPrice> {
    Retired(prices, p.trip) + [p.(deleted := false)]
  }

  /** The first live price of the trip. */
  function GetTripPricing(prices: seq<TripPrice>, trip: Id): Option<TripPrice> {
    if prices == [] then None
    else
      var n := |prices| - 1;
      var earlier := GetTripPricing(prices[..n], trip);
      if earlier.Some? then earlier else if prices[n].trip == trip && !prices[n].deleted then Some(prices[n]) else None
  }

  function SetRun(start: seq<TripPrice>, settings: seq<TripPrice>): seq<TripPrice> {
    if settings == [] then start
    else SetTripPricing(SetRun(start, settings[..|settings| - 1]), settings[|settings| - 1])
  }

  /** The last value set for the trip. */
  function LastSet(settings: seq<TripPrice>, trip: Id): Option<TripPrice> {
    if settings == [] then None
    else if settings[|settings| - 1].trip == trip then Some(settings[|settings| - 1].(deleted := false))
    else LastSet(settings[..|settings| - 1], trip)
  }

  /** The live prices of a trip, in table order. */
  function LivePrices(prices: seq<TripPrice>, trip: Id): seq<TripPrice> {
    Filter(prices, (p: TripPrice) => p.trip == trip && !p.deleted)
  }

  lemma {:induction false} GetsFirstLive(prices: seq<TripPrice>, trip: Id)
    ensures var live := LivePrices(prices, trip);
            GetTripPricing(prices, trip) == if live == [] then None else Some(live[0])
  {
    if prices != [] {
      GetsFirstLive(prices[..|prices| - 1], trip);
    }
  }

  lemma {:induction false} RetiredLive(prices: seq<TripPrice>, gone: Id, trip: Id)
    ensures LivePrices(Retired(prices, gone), trip) == if trip == gone then [] else LivePrices(prices, trip)
  {
    if prices != [] {
      var n := |prices| - 1;
      RetiredLive(prices[..n], gone, trip);
      assert Retired(prices, gone)[..n] == Retired(prices[..n], gone);
    }
  }

  /**
   Setting a price leaves it the only live price of its trip, however many there were, and other trips'
   prices alone.
   */
  lemma SetLive(prices: seq<TripPrice>, p: TripPrice, trip: Id)
    ensures LivePrices(SetTripPricing(prices, p), trip) ==
            if trip == p.trip then [p.(deleted := false)] else LivePrices(prices, trip)
  {
    RetiredLive(prices, p.trip, trip);
    var after := SetTripPricing(prices, p);
    assert after[..|after| - 1] == Retired(prices, p.trip);
  }

  /** No row is lost: those of the trip are flagged as deleted, the others stay, and the new one follows. */
  lemma PriceRowsKept(prices: seq<TripPrice>, p: TripPrice)
    ensures var after := SetTripPricing(prices, p);
            && |after| == |prices| + 1
            && after[|prices|] == TripPrice(p.trip, p.rule, p.basePrice, p.finalPrice, false)
            && forall i: nat | i < |prices| ::
                 after[i] == if prices[i].trip == p.trip then prices[i].(deleted := true) else prices[i]
  {
  }

  /**
   After every run of setting prices, from any table, the last price set for a trip is its only live
   price; a trip for which none was set still has the live prices it had.
   */
  lemma {:induction false} OnlyLastLive(start: seq<TripPrice>, settings: seq<TripPrice>, trip: Id)
    ensures LivePrices(SetRun(start, settings), trip) ==
            match LastSet(settings, trip) case Some(p) => [p] case None => LivePrices(start, trip)
  {
    if settings != [] {
      var front, last := settings[..|settings| - 1], settings[|settings| - 1];
      OnlyLastLive(start, front, trip);
      SetLive(SetRun(start, front), last, trip);
    }
  }

  /**
   After every run of setting prices, reading a trip's price gives the last one set for it, or what it gave
   before.
   */
  lemma {:induction false} GetsLastSet(start: seq<TripPrice>, settings: seq<TripPrice>, trip: Id)
    ensures GetTripPricing(SetRun(start, settings), trip) ==
            if LastSet(settings, trip).Some? then LastSet(settings, trip) else GetTripPricing(start, trip)
  {
    GetsFirstLive(SetRun(start, settings), trip);
    GetsFirstLive(start, trip);
    OnlyLastLive(start, settings, trip);
  }

  // ----- the tables as they are changed

  class RuleDesk {
    var rules: seq<RuleRow>
    var prices: seq<TripPrice>

    constructor ()
      ensures OneDefault(rules) && rules == [] && prices == []
    {
      rules, prices := [], [];
    }

    method CreatePricingRule(tenant: Id, isDefault: bool) returns (id: Id)
      requires OneDefault(rules)
      modifies this`rules
      ensures OneDefault(rules) && rules == Changed(old(rules), CreateRule(tenant, isDefault)) && id == |old(rules)|
    {
      OneDefaultKept(rules, CreateRule(tenant, isDefault));
      id := |rules|;
      if isDefault {
        rules := Unset(rules, tenant, None);
      }
      rules := rules + [RuleRow(tenant, isDefault, false)];
    }

    method UpdatePricingRule(id: Id, isDefault: Option<bool>) returns (found: bool)
      requires OneDefault(rules)
      modifies this`rules
      ensures OneDefault(rules) && rules == Changed(old(rules), UpdateRule(id, isDefault))
              && found == (id < |old(rules)|)
    {
      OneDefaultKept(rules, UpdateRule(id, isDefault));
      found := id < |rules|;
      if found {
        if isDefault == Some(true) {
          rules := Unset(rules, rules[id].tenant, Some(id));
        }
        rules := rules[id := rules[id].(isDefault := isDefault.Or(rules[id].isDefault))];
      }
    }

    method DeletePricingRule(id: Id) returns (found: bool)
      requires OneDefault(rules)
      modifies this`rules
      ensures OneDefault(rules) && rules == Changed(old(rules), DeleteRule(id)) && found == (id < |old(rules)|)
    {
      OneDefaultKept(rules, DeleteRule(id));
      found := id < |rules|;
      if found {
        rules := rules[id := rules[id].(deleted := true)];
      }
    }

    method SetPricing(p: TripPrice)
      modifies this`prices
      ensures LivePrices(prices, p.trip) == [p.(deleted := false)]
      ensures GetTripPricing(prices, p.trip) == Some(p.(deleted := false))
      ensures forall trip: Id | trip != p.trip ::
                LivePrices(prices, trip) == old(LivePrices(prices, trip))
                && GetTripPricing(prices, trip) == old(GetTripPricing(prices, trip))
      ensures prices == SetTripPricing(old(prices), p)
    {
      ghost var before := prices;
      prices := Retired(prices, p.trip);
      prices := prices + [p.(deleted := false)];
      forall trip: Id
        ensures LivePrices(prices, trip) == if trip == p.trip then [p.(deleted := false)] else LivePrices(before, trip)
        ensures GetTripPricing(prices, trip) ==
                if trip == p.trip then Some(p.(deleted := false)) else GetTripPricing(before, trip)
      {
        SetLive(before, p, trip);
        GetsFirstLive(before, trip);
        GetsFirstLive(prices, trip);
      }
    }
  }
}
