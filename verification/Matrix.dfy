/** The generated station price matrix, and what a rule holding it charges. */
module Matrix {
  import opened Options
  import opened Tables
  import opened Collections
  import opened Pricing
  import Sorting

  /** What a matrix is generated from. */
  datatype Tariff = Tariff(basePrice: real, pricePerStation: real)

  function Fare(t: Tariff, count: nat): real {
    t.basePrice + count as real * t.pricePerStation
  }

  /** One entry of a matrix, before it is stored. */
  datatype Entry = Entry(origin: Id, destination: Id, price: real, stationCount: int)

  /** The entry for travelling from the i-th to the j-th station. */
  function EntryFor(stations: seq<Id>, i: nat, j: nat, t: Tariff): Entry
    requires i < j < |stations|
  {
    Entry(stations[i], stations[j], Fare(t, j - i), j - i)
  }

  ghost predicate Stretch(e: Entry, stations: seq<Id>, t: Tariff) {
    exists i: nat, j: nat | i < j < |stations| :: e == EntryFor(stations, i, j, t)
  }

  ghost predicate Stretches(matrix: seq<Entry>, stations: seq<Id>, t: Tariff) {
    forall e | e in matrix :: Stretch(e, stations, t)
  }

  /** All entries from the i-th station to one before the j-th are there. */
  ghost predicate RowListed(matrix: seq<Entry>, stations: seq<Id>, t: Tariff, i: nat, j: nat)
    requires j <= |stations|
  {
    forall b: nat | i < b < j :: EntryFor(stations, i, b, t) in matrix
  }

  ghost predicate RowsListed(matrix: seq<Entry>, stations: seq<Id>, t: Tariff, n: nat) {
    forall a: nat | a < n :: RowListed(matrix, stations, t, a, |stations|)
  }

  /** Exactly the stretches of the route are listed. */
  ghost predicate Generated(matrix: seq<Entry>, stations: seq<Id>, t: Tariff) {
    Stretches(matrix, stations, t) && RowsListed(matrix, stations, t, |stations|)
  }

  lemma Grown(matrix: seq<Entry>, e: Entry, stations: seq<Id>, t: Tariff, n: nat)
    ensures RowsListed(matrix, stations, t, n) ==> RowsListed(matrix + [e], stations, t, n)
    ensures forall i: nat, j: nat | j <= |stations| && RowListed(matrix, stations, t, i, j) ::
              RowListed(matrix + [e], stations, t, i, j)
  {
    assert forall x :: x in matrix ==> x in matrix + [e];
    if RowsListed(matrix, stations, t, n) {
      forall a: nat | a < n ensures RowListed(matrix + [e], stations, t, a, |stations|) {
        assert RowListed(matrix, stations, t, a, |stations|);
      }
    }
  }

  /** The nested loops: one entry for each pair of an earlier and a later station, and nothing else. */
  method GenerateStationPricingMatrix(stations: seq<Id>, t: Tariff) returns (matrix: seq<Entry>)
    ensures Generated(matrix, stations, t)
    ensures 2 * |matrix| == |stations| * (|stations| - 1)
  {
    matrix := [];
    var n := |stations|;
    for i := 0 to n
      invariant Stretches(matrix, stations, t) && RowsListed(matrix, stations, t, i)
      invariant 2 * |matrix| == i * (2 * n - i - 1)
    {
      ghost var before := |matrix|;
      for j := i + 1 to n
        invariant |matrix| == before + (j - i - 1)
        invariant Stretches(matrix, stations, t) && RowsListed(matrix, stations, t, i)
        invariant RowListed(matrix, stations, t, i, j)
      {
        var stationCount := j - i;
        var price := t.basePrice + stationCount as real * t.pricePerStation;
        var entry := Entry(stations[i], stations[j], price, stationCount);
        assert entry == EntryFor(stations, i, j, t);
        Grown(matrix, entry, stations, t, i);
        matrix := matrix + [entry];
      }
      CountStep(before, i, n);
    }
  }

  lemma CountStep(before: int, i: int, n: int)
    requires 2 * before == i * (2 * n - i - 1)
    ensures 2 * (before + (n - i - 1)) == (i + 1) * (2 * n - (i + 1) - 1)
  {
    assert (i + 1) * (2 * n - i - 2) == i * (2 * n - i - 2) + (2 * n - i - 2);
    assert i * (2 * n - i - 1) == i * (2 * n - i - 2) + i;
  }

  // ----- storing

  function Stored(e: Entry, rule: Id, route: Id): StationPrice {
    StationPrice(rule, route, e.origin, e.destination, e.price, e.stationCount, false)
  }

  /** The unique key of the table, which deleted rows keep occupied. */
  predicate SameKey(a: StationPrice, b: StationPrice) {
    a.rule == b.rule && a.route == b.route && a.origin == b.origin && a.destination == b.destination
  }

  predicate KeyTaken(table: seq<StationPrice>, row: StationPrice) {
    exists k: nat | k < |table| :: SameKey(table[k], row)
  }

  /** A row, deleted or not, has these values in the columns of the key. */
  ghost predicate Occupied(table: seq<StationPrice>, rule: Id, route: Id, origin: Id, destination: Id) {
    exists y :: y in table && y.rule == rule && y.route == route && y.origin == origin && y.destination == destination
  }

  lemma TakenMeansOccupied(table: seq<StationPrice>, x: StationPrice)
    ensures KeyTaken(table, x) <==> Occupied(table, x.rule, x.route, x.origin, x.destination)
  {
    if Occupied(table, x.rule, x.route, x.origin, x.destination) {
      var y :| y in table && y.rule == x.rule && y.route == x.route && y.origin == x.origin
               && y.destination == x.destination;
      var k: nat :| k < |table| && table[k] == y;
      assert SameKey(table[k], x);
    }
  }

  /** Bulk creation, leaving out entries whose key is taken. */
  function BulkCreate(table: seq<StationPrice>, rule: Id, route: Id, matrix: seq<Entry>): seq<StationPrice> {
    if matrix == [] then table
    else
      var front, last := matrix[..|matrix| - 1], matrix[|matrix| - 1];
      var before := BulkCreate(table, rule, route, front);
      if KeyTaken(before, Stored(last, rule, route)) then before else before + [Stored(last, rule, route)]
  }

  function LoadedFor(rule: Id, route: Option<Id>): StationPrice -> bool {
    (sp: StationPrice) => sp.rule == rule && !sp.deleted && (route.Some? ==> sp.route == route.value)
  }

  /** A rule as loaded for pricing a trip. */
  function Load(rule: Rule, table: seq<StationPrice>, route: Option<Id>): Rule {
    rule.(stationPrices := Filter(table, LoadedFor(rule.id, route)))
  }

  /**
   A rule is loaded with exactly its own station prices that are not deleted and, if the trip has a route,
   are for it.
   */
  lemma LoadedMember(rule: Rule, table: seq<StationPrice>, route: Option<Id>, x: StationPrice)
    ensures x in Load(rule, table, route).stationPrices <==>
            x in table && x.rule == rule.id && !x.deleted && (route.Some? ==> x.route == route.value)
    ensures Load(rule, table, route) == rule.(stationPrices := Load(rule, table, route).stationPrices)
  {
    FilterMember(table, LoadedFor(rule.id, route), x);
  }

  /** The row stored for the stretch from the i-th to the j-th station. */
  function RowFor(stations: seq<Id>, i: nat, j: nat, t: Tariff, rule: Id, route: Id): StationPrice
    requires i < j < |stations|
  {
    Stored(EntryFor(stations, i, j, t), rule, route)
  }

  ghost predicate StretchRow(x: StationPrice, stations: seq<Id>, t: Tariff, rule: Id, route: Id) {
    exists i: nat, j: nat | i < j < |stations| :: x == RowFor(stations, i, j, t, rule, route)
  }

  ghost predicate DistinctIds(s: seq<Id>) {
    forall i: nat, j: nat | i < j < |s| :: s[i] != s[j]
  }

  lemma SameStretch(a: Entry, b: Entry, stations: seq<Id>, t: Tariff)
    requires Stretch(a, stations, t) && Stretch(b, stations, t) && DistinctIds(stations)
    requires a.origin == b.origin && a.destination == b.destination
    ensures a == b
  {
    var i: nat, j: nat :| i < j < |stations| && a == EntryFor(stations, i, j, t);
    var k: nat, l: nat :| k < l < |stations| && b == EntryFor(stations, k, l, t);
    assert i == k && j == l;
  }

  /** Bulk creation adds a row for exactly the entries whose key was not taken, and keeps every row. */
  lemma {:induction false} BulkCreateMember(table: seq<StationPrice>, rule: Id, route: Id, matrix: seq<Entry>,
                                            stations: seq<Id>, t: Tariff, x: StationPrice)
    requires Stretches(matrix, stations, t) && DistinctIds(stations)
    ensures x in BulkCreate(table, rule, route, matrix) <==>
            x in table || (!Occupied(table, x.rule, x.route, x.origin, x.destination)
                           && exists e :: e in matrix && x == Stored(e, rule, route))
  {
    if matrix != [] {
      var front, last := matrix[..|matrix| - 1], matrix[|matrix| - 1];
      assert matrix == front + [last];
      assert forall e :: e in front ==> e in matrix;
      var before, row := BulkCreate(table, rule, route, front), Stored(last, rule, route);
      BulkCreateMember(table, rule, route, front, stations, t, x);
      TakenMeansOccupied(table, row);
      BulkKeys(table, rule, route, front, row);
      if KeyTaken(before, row) && !KeyTaken(table, row) {
        var e :| e in front && SameKey(Stored(e, rule, route), row);
        SameStretch(e, last, stations, t);
      }
      assert x in before + [row] <==> x in before || x == row;
    }
  }

  /** A key is taken afterwards if it was before or belongs to an entry. */
  lemma {:induction false} BulkKeys(table: seq<StationPrice>, rule: Id, route: Id, matrix: seq<Entry>, x: StationPrice)
    ensures KeyTaken(BulkCreate(table, rule, route, matrix), x) <==>
            KeyTaken(table, x) || exists e :: e in matrix && SameKey(Stored(e, rule, route), x)
  {
    if matrix != [] {
      var front, last := matrix[..|matrix| - 1], matrix[|matrix| - 1];
      assert matrix == front + [last];
      var before, row := BulkCreate(table, rule, route, front), Stored(last, rule, route);
      BulkKeys(table, rule, route, front, x);
      TakenAppend(before, row, x);
      if KeyTaken(before, row) && SameKey(row, x) {
        var k: nat :| k < |before| && SameKey(before[k], row);
        assert SameKey(before[k], x);
      }
    }
  }

  lemma TakenAppend(table: seq<StationPrice>, row: StationPrice, x: StationPrice)
    ensures KeyTaken(table + [row], x) <==> KeyTaken(table, x) || SameKey(row, x)
  {
    var after := table + [row];
    if KeyTaken(table, x) {
      var k: nat :| k < |table| && SameKey(table[k], x);
      assert after[k] == table[k];
    }
    assert after[|table|] == row;
  }

  /** Storing a matrix changes nothing exactly when every key of it is taken. */
  lemma {:induction false} StoringIdle(table: seq<StationPrice>, rule: Id, route: Id, matrix: seq<Entry>)
    ensures |BulkCreate(table, rule, route, matrix)| >= |table|
    ensures BulkCreate(table, rule, route, matrix) == table <==>
            forall e | e in matrix :: Occupied(table, rule, route, e.origin, e.destination)
  {
    if matrix != [] {
      var front, last := matrix[..|matrix| - 1], matrix[|matrix| - 1];
      assert matrix == front + [last];
      StoringIdle(table, rule, route, front);
      TakenMeansOccupied(table, Stored(last, rule, route));
    }
  }

  /**
   Once a matrix is stored, a matrix of the same route with another tariff changes no row of the table, so the
   old prices go on being charged.
   */
  lemma NewTariffIgnored(table: seq<StationPrice>, rule: Id, route: Id, first: seq<Entry>, second: seq<Entry>,
                         stations: seq<Id>, t: Tariff, u: Tariff)
    requires Generated(first, stations, t) && Generated(second, stations, u)
    ensures var once := BulkCreate(table, rule, route, first); BulkCreate(once, rule, route, second) == once
  {
    var once := BulkCreate(table, rule, route, first);
    forall e | e in second ensures Occupied(once, rule, route, e.origin, e.destination) {
      var i: nat, j: nat :| i < j < |stations| && e == EntryFor(stations, i, j, u);
      assert RowListed(first, stations, t, i, |stations|);
      assert EntryFor(stations, i, j, t) in first;
      assert SameKey(Stored(EntryFor(stations, i, j, t), rule, route), Stored(e, rule, route));
      BulkKeys(table, rule, route, first, Stored(e, rule, route));
      TakenMeansOccupied(once, Stored(e, rule, route));
    }
    StoringIdle(once, rule, route, second);
  }

  // ----- charging

  lemma {:induction false} IndexOfDistinct(s: seq<Id>, i: nat)
    requires DistinctIds(s) && i < |s|
    ensures IndexOf(s, s[i]) == Some(i)
  {
    if i > 0 {
      var rest := s[1..];
      assert rest[i - 1] == s[i];
      forall a: nat, b: nat | a < b < |rest| ensures rest[a] != rest[b] {
        assert rest[a] == s[a + 1] && rest[b] == s[b + 1];
      }
      IndexOfDistinct(rest, i - 1);
      assert s[0] != s[i];
    }
  }

  /** The prices are exactly one row for each stretch of the route. */
  ghost predicate Complete(prices: seq<StationPrice>, stations: seq<Id>, t: Tariff, rule: Id, route: Id) {
    && (forall x | x in prices :: StretchRow(x, stations, t, rule, route))
    && (forall i: nat, j: nat | i < j < |stations| :: RowFor(stations, i, j, t, rule, route) in prices)
  }

  /** Looking up a price directly succeeds exactly in the direction of travel. */
  lemma DirectPrice(prices: seq<StationPrice>, stations: seq<Id>, t: Tariff, rule: Id, route: Id, i: nat, j: nat)
    requires Complete(prices, stations, t, rule, route) && DistinctIds(stations)
    requires i < |stations| && j < |stations| && i != j
    ensures var direct := FindFirst(prices, Direct(stations[i], stations[j]));
            if i < j then direct.Some? && direct.value.price == Fare(t, j - i) else direct.None?
  {
    var direct := FindFirst(prices, Direct(stations[i], stations[j]));
    FindFirstFinds(prices, Direct(stations[i], stations[j]));
    if i < j {
      var k: nat :| k < |prices| && prices[k] == RowFor(stations, i, j, t, rule, route);
      assert Direct(stations[i], stations[j])(prices[k]);
    }
    if direct.Some? {
      var x := direct.value;
      assert x in prices && Direct(stations[i], stations[j])(x);
      var a: nat, b: nat :| a < b < |stations| && x == RowFor(stations, a, b, t, rule, route);
      assert a == i && b == j;
    }
  }

  /** A price set for exactly this stretch and direction is charged, whatever the tiers say. */
  lemma DirectPriceWins(rule: Rule, trip: PricedTrip, origin: Id, destination: Id)
    requires rule.kind == StationBased
    ensures (exists x :: x in rule.stationPrices && x.origin == origin && x.destination == destination) ==>
            exists x :: x in rule.stationPrices && x.origin == origin && x.destination == destination
              && ApplyRule(rule, trip, Some(origin), Some(destination)) == Priced(Price(x.price, x.price, rule.id))
  {
    FindFirstFinds(rule.stationPrices, Direct(origin, destination));
    if x :| x in rule.stationPrices && x.origin == origin && x.destination == destination {
      var k: nat :| k < |rule.stationPrices| && rule.stationPrices[k] == x;
      assert Direct(origin, destination)(rule.stationPrices[k]);
    }
  }

  /** A station rule gives no price unless both stations are named. */
  lemma StationsNeeded(rule: Rule, trip: PricedTrip, origin: Option<Id>, destination: Option<Id>)
    requires rule.kind == StationBased
    ensures ApplyRule(rule, trip, origin, destination) == Null <==> origin.None? || destination.None?
  {
  }

  /**
   The tier is of the trip's route and is the least that covers the stations travelled or, if none does, the
   greatest.
   */
  ghost predicate Fitting(prices: seq<StationPrice>, route: Option<Id>, count: int, x: StationPrice) {
    && x in prices && Some(x.route) == route
    && forall y | y in prices && Some(y.route) == route ::
         if x.stationCount >= count then y.stationCount < count || x.stationCount <= y.stationCount
         else y.stationCount <= x.stationCount
  }

  ghost predicate ChargesFitting(rule: Rule, trip: PricedTrip, count: int, quote: Quote) {
    exists x :: Fitting(rule.stationPrices, trip.route, count, x) && quote == Priced(Price(x.price, x.price, rule.id))
  }

  /**
   Without a price for exactly the stretch, a station rule fails for stations that the trip does not call at
   and on a route without prices; otherwise it charges the fitting tier for the number of stations from
   the first call at the one station to the first call at the other.
   */
  lemma TierCharged(rule: Rule, trip: PricedTrip, origin: Id, destination: Id)
    requires rule.kind == StationBased
    requires forall x | x in rule.stationPrices :: x.origin != origin || x.destination != destination
    ensures var quote := ApplyRule(rule, trip, Some(origin), Some(destination));
            var priced := exists x :: x in rule.stationPrices && Some(x.route) == trip.route;
            && (quote == Thrown <==> origin !in trip.stations || destination !in trip.stations || !priced)
            && forall i: nat, j: nat
                 | FirstCall(trip.stations, origin, i) && FirstCall(trip.stations, destination, j) && priced ::
                 ChargesFitting(rule, trip, if i <= j then j - i else i - j, quote)
  {
    FindFirstFinds(rule.stationPrices, Direct(origin, destination));
    IndexOfFirst(trip.stations, origin);
    IndexOfFirst(trip.stations, destination);
    var tiers := Tiers(rule.stationPrices, trip.route);
    if tiers == [] {
      forall x | x in rule.stationPrices ensures Some(x.route) != trip.route {
        TiersMember(rule.stationPrices, trip.route, x);
      }
    } else {
      TiersMember(rule.stationPrices, trip.route, tiers[0]);
    }
    forall i: nat, j: nat
      | FirstCall(trip.stations, origin, i) && FirstCall(trip.stations, destination, j) && tiers != []
      ensures ChargesFitting(rule, trip, Distance(i, j), ApplyRule(rule, trip, Some(origin), Some(destination)))
    {
      FittingTier(rule.stationPrices, trip.route, Distance(i, j));
    }
  }

  ghost predicate FirstCall(stations: seq<Id>, x: Id, i: nat) {
    i < |stations| && stations[i] == x && forall k: nat :: k < i ==> stations[k] != x
  }

  lemma {:induction false} IndexOfFirst(stations: seq<Id>, x: Id)
    ensures match IndexOf(stations, x)
            case None => x !in stations
            case Some(i) => FirstCall(stations, x, i) && x in stations
    ensures forall i: nat :: FirstCall(stations, x, i) ==> IndexOf(stations, x) == Some(i)
  {
    if stations != [] && stations[0] != x {
      var rest := stations[1..];
      IndexOfFirst(rest, x);
      assert stations == [stations[0]] + rest;
      forall i: nat ensures FirstCall(stations, x, i) <==> i > 0 && FirstCall(rest, x, i - 1) {
        if i > 0 && FirstCall(stations, x, i) {
          assert forall k: nat :: k < i - 1 ==> rest[k] == stations[k + 1];
        }
        if i > 0 && FirstCall(rest, x, i - 1) {
          forall k: nat | k < i ensures stations[k] != x {
            if k > 0 { assert rest[k - 1] == stations[k]; }
          }
        }
      }
    }
  }

  lemma FittingTier(prices: seq<StationPrice>, route: Option<Id>, count: nat)
    requires Tiers(prices, route) != []
    ensures var tiers := Tiers(prices, route);
            var found := FindFirst(tiers, CoversCount(count));
            Fitting(prices, route, count, if found.Some? then found.value else tiers[|tiers| - 1])
  {
    var tiers := Tiers(prices, route);
    FindFirstFinds(tiers, CoversCount(count));
    var found := FindFirst(tiers, CoversCount(count));
    if found.Some? {
      var p: nat :| p < |tiers| && tiers[p] == found.value && CoversCount(count)(tiers[p])
        && forall l: nat :: l < p ==> !CoversCount(count)(tiers[l]);
      forall l: nat | l < p ensures tiers[l].stationCount < count { assert !CoversCount(count)(tiers[l]); }
      FitsAt(prices, route, count, p);
    } else {
      forall l: nat | l < |tiers| ensures tiers[l].stationCount < count { assert !CoversCount(count)(tiers[l]); }
      FitsAt(prices, route, count, |tiers| - 1);
    }
  }

  /** In the sorted tiers the first that covers the count fits, and the last if all fall short. */
  lemma FitsAt(prices: seq<StationPrice>, route: Option<Id>, count: nat, p: nat)
    requires var tiers := Tiers(prices, route);
             && p < |tiers|
             && (forall l: nat | l < p :: tiers[l].stationCount < count)
             && (tiers[p].stationCount < count ==> p == |tiers| - 1)
    ensures Fitting(prices, route, count, Tiers(prices, route)[p])
  {
    var tiers := Tiers(prices, route);
    var x := tiers[p];
    TiersMember(prices, route, x);
    forall y | y in prices && Some(y.route) == route
      ensures if x.stationCount >= count then y.stationCount < count || x.stationCount <= y.stationCount
              else y.stationCount <= x.stationCount
    {
      TiersMember(prices, route, y);
      var q: nat :| q < |tiers| && tiers[q] == y;
      TiersInOrder(prices, route, p, q);
    }
  }

  lemma TiersInOrder(prices: seq<StationPrice>, route: Option<Id>, p: nat, q: nat)
    requires p < |Tiers(prices, route)| && q < |Tiers(prices, route)|
    ensures var tiers := Tiers(prices, route);
            if p <= q then tiers[p].stationCount <= tiers[q].stationCount
            else tiers[q].stationCount <= tiers[p].stationCount
  {
    var tiers := Tiers(prices, route);
    assert Sorting.TotalPreorder(ByCount);
    Sorting.SortSorted(Filter(prices, ForRoute(route)), ByCount);
    assert p < q ==> ByCount(tiers[p], tiers[q]);
    assert q < p ==> ByCount(tiers[q], tiers[p]);
  }

  lemma TiersMember(prices: seq<StationPrice>, route: Option<Id>, x: StationPrice)
    ensures x in Tiers(prices, route) <==> x in prices && Some(x.route) == route
  {
    Sorting.SortMember(Filter(prices, ForRoute(route)), ByCount, x);
    FilterMember(prices, ForRoute(route), x);
  }

  /** If some tier is for exactly this number of stations, the first tier that covers it is for exactly this number. */
  lemma FirstCover(prices: seq<StationPrice>, route: Option<Id>, count: nat, exact: StationPrice)
    requires exact in prices && Some(exact.route) == route && exact.stationCount == count
    ensures var fitting := FindFirst(Tiers(prices, route), CoversCount(count));
            fitting.Some? && fitting.value in prices && fitting.value.stationCount == count
  {
    var tiers := Tiers(prices, route);
    TiersMember(prices, route, exact);
    var p: nat :| p < |tiers| && tiers[p] == exact;
    assert Sorting.TotalPreorder(ByCount);
    Sorting.SortSorted(Filter(prices, ForRoute(route)), ByCount);
    FindFirstFinds(tiers, CoversCount(count));
    assert CoversCount(count)(tiers[p]);
    var fitting := FindFirst(tiers, CoversCount(count));
    assert fitting.Some?;
    var q: nat :| q < |tiers| && tiers[q] == fitting.value && CoversCount(count)(fitting.value)
                  && forall l: nat :: l < q ==> !CoversCount(count)(tiers[l]);
    assert q < p ==> ByCount(tiers[q], tiers[p]);
    TiersMember(prices, route, tiers[q]);
  }

  /** Among the sorted tiers the first that covers a number of stations charges for exactly that number. */
  lemma TierPrice(prices: seq<StationPrice>, stations: seq<Id>, t: Tariff, rule: Id, route: Id, count: nat)
    requires Complete(prices, stations, t, rule, route)
    requires 1 <= count < |stations|
    ensures var fitting := FindFirst(Tiers(prices, Some(route)), CoversCount(count));
            fitting.Some? && fitting.value.price == Fare(t, count)
  {
    var exact := RowFor(stations, 0, count, t, rule, route);
    assert exact in prices;
    FirstCover(prices, Some(route), count, exact);
    var x := FindFirst(Tiers(prices, Some(route)), CoversCount(count)).value;
    var a: nat, b: nat :| a < b < |stations| && x == RowFor(stations, a, b, t, rule, route);
  }

  /**
   A rule holding the whole matrix of a route charges, on a trip through the same distinct stations in
   that order, the base price and a fixed amount for each station travelled, the same in both
   directions although only one of them is in the matrix.
   */
  lemma CompleteSymmetric(rule: Rule, trip: PricedTrip, route: Id, t: Tariff, i: nat, j: nat)
    requires rule.kind == StationBased
    requires Complete(rule.stationPrices, trip.stations, t, rule.id, route) && DistinctIds(trip.stations)
    requires trip.route == Some(route) && i < |trip.stations| && j < |trip.stations| && i != j
    ensures var price := Fare(t, Distance(i, j));
            ApplyRule(rule, trip, Some(trip.stations[i]), Some(trip.stations[j])) ==
            Priced(Price(price, price, rule.id))
  {
    DirectPrice(rule.stationPrices, trip.stations, t, rule.id, route, i, j);
    IndexOfDistinct(trip.stations, i);
    IndexOfDistinct(trip.stations, j);
    TierPrice(rule.stationPrices, trip.stations, t, rule.id, route, Distance(i, j));
  }

  /**
   The live rows of the rule for the route are rows of this very matrix, and a row that is missing can be
   stored: none, not even a deleted one, has its key.
   */
  ghost predicate Storable(table: seq<StationPrice>, rule: Id, route: Id, stations: seq<Id>, t: Tariff) {
    && (forall y | y in table && y.rule == rule && y.route == route && !y.deleted ::
          StretchRow(y, stations, t, rule, route))
    && (forall i: nat, j: nat | i < j < |stations| ::
          RowFor(stations, i, j, t, rule, route) in table || !Occupied(table, rule, route, stations[i], stations[j]))
  }

  lemma StoredMember(table: seq<StationPrice>, rule: Id, route: Id, matrix: seq<Entry>, stations: seq<Id>, t: Tariff,
                     x: StationPrice)
    requires Generated(matrix, stations, t) && DistinctIds(stations)
    ensures x in Filter(BulkCreate(table, rule, route, matrix), LoadedFor(rule, Some(route))) <==>
            && LoadedFor(rule, Some(route))(x)
            && (x in table || (!KeyTaken(table, x) && StretchRow(x, stations, t, rule, route)))
  {
    FilterMember(BulkCreate(table, rule, route, matrix), LoadedFor(rule, Some(route)), x);
    BulkCreateMember(table, rule, route, matrix, stations, t, x);
    if StretchRow(x, stations, t, rule, route) {
      var i: nat, j: nat :| i < j < |stations| && x == RowFor(stations, i, j, t, rule, route);
      assert RowListed(matrix, stations, t, i, |stations|);
      assert EntryFor(stations, i, j, t) in matrix;
    }
    if e :| e in matrix && x == Stored(e, rule, route) {
      var i: nat, j: nat :| i < j < |stations| && e == EntryFor(stations, i, j, t);
      assert x == RowFor(stations, i, j, t, rule, route);
    }
  }

  /** After storing a generated matrix exactly its rows are loaded, if and only if the table had room for it. */
  lemma StoredComplete(table: seq<StationPrice>, rule: Id, route: Id, matrix: seq<Entry>, stations: seq<Id>, t: Tariff)
    requires Generated(matrix, stations, t) && DistinctIds(stations)
    ensures Complete(Filter(BulkCreate(table, rule, route, matrix), LoadedFor(rule, Some(route))),
                     stations, t, rule, route)
            <==> Storable(table, rule, route, stations, t)
  {
    var prices := Filter(BulkCreate(table, rule, route, matrix), LoadedFor(rule, Some(route)));
    forall x ensures x in prices <==>
                     && LoadedFor(rule, Some(route))(x)
                     && (x in table || (!KeyTaken(table, x) && StretchRow(x, stations, t, rule, route)))
    {
      StoredMember(table, rule, route, matrix, stations, t, x);
    }
    forall i: nat, j: nat | i < j < |stations|
      ensures RowFor(stations, i, j, t, rule, route) in prices <==>
              RowFor(stations, i, j, t, rule, route) in table
              || !KeyTaken(table, RowFor(stations, i, j, t, rule, route))
    {
      assert StretchRow(RowFor(stations, i, j, t, rule, route), stations, t, rule, route);
    }
  }

  /** From generating over storing to charging: the price depends only on how many stations are travelled. */
  lemma MatrixPriceSymmetric(table: seq<StationPrice>, rule: Rule, route: Id, matrix: seq<Entry>, trip: PricedTrip,
                             t: Tariff, i: nat, j: nat)
    requires rule.kind == StationBased && Generated(matrix, trip.stations, t) && DistinctIds(trip.stations)
    requires Storable(table, rule.id, route, trip.stations, t)
    requires trip.route == Some(route) && i < |trip.stations| && j < |trip.stations| && i != j
    ensures var loaded := Load(rule, BulkCreate(table, rule.id, route, matrix), trip.route);
            var quote := ApplyRule(loaded, trip, Some(trip.stations[i]), Some(trip.stations[j]));
            && quote == ApplyRule(loaded, trip, Some(trip.stations[j]), Some(trip.stations[i]))
            && quote == Priced(Price(Fare(t, Distance(i, j)), Fare(t, Distance(i, j)), rule.id))
  {
    StoredComplete(table, rule.id, route, matrix, trip.stations, t);
    var loaded := Load(rule, BulkCreate(table, rule.id, route, matrix), trip.route);
    CompleteSymmetric(loaded, trip, route, t, i, j);
    CompleteSymmetric(loaded, trip, route, t, j, i);
  }
}
