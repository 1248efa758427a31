/** Routes: the order of their stations and the cached length. */
module Routes {
  import opened Options
  import opened Tables
  import opened Collections
  import opened Proximity
  import opened Legs
  import Sorting

  /** All stations of the tenant, and for each route its cached `distanceKm`. */
  datatype Network = Network(stations: seq<Station>, distances: seq<Option<real>>)

  datatype Answer = Accepted | RouteMissing | StationMissing

  function OnRoute(route: Id): Station -> bool {
    (s: Station) => s.route == route
  }

  predicate BySequence(a: Station, b: Station) {
    a.sequence <= b.sequence
  }

  /** `getRouteStations`: the route's stations, ordered by sequence. */
  function RouteStations(stations: seq<Station>, route: Id): seq<Station> {
    Sorting.Sort(Filter(stations, OnRoute(route)), BySequence)
  }

  /** The sequence given, or one more than the last station's. */
  function NextSequence(stations: seq<Station>, route: Id, provided: Option<int>): int {
    if provided.Some? then provided.value
    else
      var rows := RouteStations(stations, route);
      (if rows == [] then 0 else rows[|rows| - 1].sequence) + 1
  }

  /** `recalculateRouteDistance`: a total of zero is not stored. */
  function Recalculated(d: Metric, n: Network, route: Id): Network
    requires route < |n.distances|
  {
    var total := PathLength(d, RouteStations(n.stations, route));
    if total > 0.0 then n.(distances := n.distances[route := Some(total)]) else n
  }

  datatype Result = Result(network: Network, answer: Answer)

  function AddStationToRoute(d: Metric, n: Network, route: Id, lat: Option<real>, lon: Option<real>,
                             provided: Option<int>): Result {
    if route >= |n.distances| then Result(n, RouteMissing)
    else
      var row := Station(|n.stations|, route, lat, lon, NextSequence(n.stations, route, provided));
      Result(Recalculated(d, n.(stations := n.stations + [row]), route), Accepted)
  }

  /** The updates of a transaction in turn. */
  function Resequenced(stations: seq<Station>, order: seq<(Id, int)>): (r: seq<Station>)
    requires forall k :: 0 <= k < |order| ==> order[k].0 < |stations|
    ensures |r| == |stations|
  {
    if order == [] then stations
    else
      var front, last := order[..|order| - 1], order[|order| - 1];
      var r := Resequenced(stations, front);
      r[last.0 := r[last.0].(sequence := last.1)]
  }

  predicate KnownStations(stations: seq<Station>, order: seq<(Id, int)>) {
    forall k :: 0 <= k < |order| ==> order[k].0 < |stations|
  }

  /** One unknown id undoes the whole transaction. */
  function ReorderStations(d: Metric, n: Network, route: Id, order: seq<(Id, int)>): Result {
    if route >= |n.distances| then Result(n, RouteMissing)
    else if !KnownStations(n.stations, order) then Result(n, StationMissing)
    else Result(Recalculated(d, n.(stations := Resequenced(n.stations, order)), route), Accepted)
  }

  /** Positions 1, 2, … for the stations of a list. */
  function Numbering(ordered: seq<Station>): (r: seq<(Id, int)>)
    ensures |r| == |ordered|
  {
    seq(|ordered|, k requires 0 <= k < |ordered| => (ordered[k].id, k + 1))
  }

  function ReorderByProximity(d: Metric, n: Network, route: Id): Result {
    var rows := RouteStations(n.stations, route);
    if |rows| < 2 then Result(n, Accepted)
    else
      var ordered := OrderByProximity(d, rows);
      var order := Numbering(ordered);
      if !KnownStations(n.stations, order) || route >= |n.distances| then Result(n, StationMissing)
      else
        Result(Network(Resequenced(n.stations, order), n.distances[route := Some(PathLength(d, ordered))]), Accepted)
  }

  datatype Edit =
    | Add(route: Id, lat: Option<real>, lon: Option<real>, provided: Option<int>)
    | Reorder(route: Id, order: seq<(Id, int)>)
    | Proximate(route: Id)

  function Apply(d: Metric, n: Network, edit: Edit): Result {
    match edit
    case Add(route, lat, lon, provided) => AddStationToRoute(d, n, route, lat, lon, provided)
    case Reorder(route, order) => ReorderStations(d, n, route, order)
    case Proximate(route) => ReorderByProximity(d, n, route)
  }

  function Run(d: Metric, n: Network, edits: seq<Edit>): Network {
    if edits == [] then n else Apply(d, Run(d, n, edits[..|edits| - 1]), edits[|edits| - 1]).network
  }

  // ----- invariants

  /** Stations are numbered by row and belong to routes. */
  ghost predicate Sound(n: Network) {
    forall i: nat | i < |n.stations| :: n.stations[i].id == i && n.stations[i].route < |n.distances|
  }

  /** No two stations of the route share a sequence number. */
  ghost predicate Distinct(stations: seq<Station>, route: Id) {
    forall i: nat, j: nat | i < j < |stations| && stations[i].route == route && stations[j].route == route ::
      stations[i].sequence != stations[j].sequence
  }

  /** The cached distance is the length of the way through the route's stations. */
  ghost predicate Agrees(d: Metric, n: Network, route: Id)
    requires route < |n.distances|
  {
    n.distances[route] == Some(PathLength(d, RouteStations(n.stations, route)))
  }

  /**
   What callers have to see to for the numbers of a route to stay distinct: a number given for a new station
   of it is not in use there, and a manual order leaves no two of its stations on one number.
   */
  ghost predicate Careful(n: Network, edit: Edit, q: Id) {
    match edit
    case Add(route, _, _, provided) =>
      route == q ==>
        forall i: nat | i < |n.stations| && n.stations[i].route == q :: provided != Some(n.stations[i].sequence)
    case Reorder(route, order) =>
      route < |n.distances| && KnownStations(n.stations, order) ==> Distinct(Resequenced(n.stations, order), q)
    case Proximate(_) => true
  }

  /** A manual order of another route that goes through has the stations of this one travel the same legs as before. */
  predicate Spares(n: Network, edit: Edit, q: Id) {
    edit.Reorder? && edit.route != q && edit.route < |n.distances| && KnownStations(n.stations, edit.order) ==>
      Travelled(RouteStations(Resequenced(n.stations, edit.order), q)) == Travelled(RouteStations(n.stations, q))
  }

  /**
   The edit stores the length of the route: a positive one it leads to, or that of two stations or more put
   in order.
   */
  predicate Mends(d: Metric, n: Network, edit: Edit, q: Id) {
    match edit
    case Add(route, _, _, _) =>
      route == q && PathLength(d, RouteStations(Apply(d, n, edit).network.stations, q)) > 0.0
    case Reorder(route, order) =>
      && route == q && KnownStations(n.stations, order)
      && PathLength(d, RouteStations(Resequenced(n.stations, order), q)) > 0.0
    case Proximate(route) => route == q && |RouteStations(n.stations, q)| >= 2
  }

  lemma BySequenceOrders()
    ensures Sorting.TotalPreorder(BySequence)
  {
  }

  lemma RouteStationsMember(stations: seq<Station>, route: Id, x: Station)
    ensures x in RouteStations(stations, route) <==> x in stations && x.route == route
  {
    Sorting.SortMember(Filter(stations, OnRoute(route)), BySequence, x);
    FilterMember(stations, OnRoute(route), x);
  }

  ghost predicate Spread(rows: seq<Station>) {
    forall i: nat, j: nat | i < j < |rows| :: rows[i].sequence != rows[j].sequence
  }

  lemma SpreadAppend(rows: seq<Station>, row: Station)
    requires Spread(rows) && forall x :: x in rows ==> x.sequence != row.sequence
    ensures Spread(rows + [row])
  {
    var all := rows + [row];
    forall i: nat, j: nat | i < j < |all| ensures all[i].sequence != all[j].sequence {
      assert all[i] == rows[i] && all[i] in rows;
    }
  }

  lemma {:induction false} FilterDistinct(stations: seq<Station>, route: Id)
    requires Distinct(stations, route)
    ensures Spread(Filter(stations, OnRoute(route)))
  {
    if stations != [] {
      var n := |stations| - 1;
      var front := stations[..n];
      FilterDistinct(front, route);
      var earlier := Filter(front, OnRoute(route));
      if stations[n].route == route {
        forall x | x in earlier ensures x.sequence != stations[n].sequence {
          FilterMember(front, OnRoute(route), x);
          var k :| 0 <= k < n && front[k] == x;
          assert stations[k] == x;
        }
        SpreadAppend(earlier, stations[n]);
        assert Filter(stations, OnRoute(route)) == earlier + [stations[n]];
      } else {
        assert Filter(stations, OnRoute(route)) == earlier;
      }
    }
  }

  /** Read by sequence, the stations of a route with distinct numbers are in strict order. */
  lemma RouteStationsStrict(stations: seq<Station>, route: Id)
    requires Distinct(stations, route)
    ensures Sorting.Strict(RouteStations(stations, route), BySequence)
  {
    BySequenceOrders();
    FilterDistinct(stations, route);
    var rows := Filter(stations, OnRoute(route));
    forall i, j | 0 <= i < j < |rows| ensures !(BySequence(rows[i], rows[j]) && BySequence(rows[j], rows[i])) {
      assert rows[i].sequence != rows[j].sequence;
    }
    Sorting.SortStrict(rows, BySequence);
  }

  /** Strictly ordered stations with exactly the rows of a route are what reading the route gives. */
  lemma RouteStationsAre(stations: seq<Station>, route: Id, rows: seq<Station>)
    requires Distinct(stations, route) && Sorting.Strict(rows, BySequence)
    requires forall x :: x in rows <==> x in stations && x.route == route
    ensures RouteStations(stations, route) == rows
  {
    BySequenceOrders();
    RouteStationsStrict(stations, route);
    forall x ensures x in RouteStations(stations, route) <==> x in rows {
      RouteStationsMember(stations, route, x);
    }
    Sorting.StrictUnique(RouteStations(stations, route), rows, BySequence);
  }

  // ----- adding a station

  lemma NextSequenceFree(stations: seq<Station>, route: Id, i: nat)
    requires i < |stations| && stations[i].route == route
    ensures stations[i].sequence < NextSequence(stations, route, None)
  {
    var rows := RouteStations(stations, route);
    RouteStationsMember(stations, route, stations[i]);
    BySequenceOrders();
    Sorting.SortSorted(Filter(stations, OnRoute(route)), BySequence);
    var k :| 0 <= k < |rows| && rows[k] == stations[i];
    assert k < |rows| - 1 ==> BySequence(rows[k], rows[|rows| - 1]);
  }

  /** The default number is 1 on an empty route and otherwise one more than the greatest number there. */
  lemma NextSequenceGreatest(stations: seq<Station>, route: Id)
    ensures if forall i: nat :: i < |stations| ==> stations[i].route != route
            then NextSequence(stations, route, None) == 1
            else exists i: nat :: i < |stations| && stations[i].route == route
                   && NextSequence(stations, route, None) == stations[i].sequence + 1
                   && forall j: nat :: j < |stations| && stations[j].route == route ==>
                        stations[j].sequence <= stations[i].sequence
  {
    var rows := RouteStations(stations, route);
    if rows == [] {
      forall i: nat | i < |stations| ensures stations[i].route != route {
        RouteStationsMember(stations, route, stations[i]);
      }
    } else {
      var last := rows[|rows| - 1];
      RouteStationsMember(stations, route, last);
      var i: nat :| i < |stations| && stations[i] == last;
      forall j: nat | j < |stations| && stations[j].route == route
        ensures stations[j].sequence <= stations[i].sequence
      {
        NextSequenceFree(stations, route, j);
      }
    }
  }

  /**
   A station is added exactly to a route that exists; otherwise nothing changes. The stations there were stay
   as they are, and one follows with a new id, this route and place and the number given, or else 1 on
   an empty route and one more than the greatest number on another. The length of the route is stored,
   unless it is zero.
   */
  lemma StationAdded(d: Metric, n: Network, route: Id, lat: Option<real>, lon: Option<real>, provided: Option<int>)
    ensures var r := Apply(d, n, Add(route, lat, lon, provided));
            && (r.answer == Accepted <==> route < |n.distances|)
            && (route >= |n.distances| ==> r == Result(n, RouteMissing))
            && (r.answer == Accepted ==>
                  && |r.network.stations| == |n.stations| + 1
                  && (var row := r.network.stations[|n.stations|];
                     && r.network.stations == n.stations + [row]
                     && row == Station(|n.stations|, route, lat, lon, row.sequence)
                     && (provided.Some? ==> row.sequence == provided.value)
                     && (provided.None? ==>
                           if forall i: nat :: i < |n.stations| ==> n.stations[i].route != route then row.sequence == 1
                           else exists i: nat :: i < |n.stations| && n.stations[i].route == route
                                  && row.sequence == n.stations[i].sequence + 1
                                  && forall j: nat :: j < |n.stations| && n.stations[j].route == route ==>
                                       n.stations[j].sequence <= n.stations[i].sequence))
                  && var length := PathLength(d, RouteStations(r.network.stations, route));
                     r.network.distances == if length > 0.0 then n.distances[route := Some(length)] else n.distances)
  {
    NextSequenceGreatest(n.stations, route);
  }

  lemma AppendOtherRoute(stations: seq<Station>, row: Station, route: Id)
    requires row.route != route
    ensures RouteStations(stations + [row], route) == RouteStations(stations, route)
    ensures Distinct(stations, route) ==> Distinct(stations + [row], route)
  {
    FilterAppend(stations, row, OnRoute(route));
    assert Filter(stations, OnRoute(route)) + [] == Filter(stations, OnRoute(route));
  }

  /**
   The recalculation after a change leaves the cache right exactly when the new total is positive or the
   cache was 0.
   */
  lemma RecalculatedAgrees(d: Metric, n: Network, route: Id)
    requires PseudoMetric(d) && route < |n.distances|
    ensures Agrees(d, Recalculated(d, n, route), route) <==>
            PathLength(d, RouteStations(n.stations, route)) > 0.0 || n.distances[route] == Some(0.0)
  {
    LengthNonNegative(d, RouteStations(n.stations, route), |RouteStations(n.stations, route)|);
  }

  /**
   Adding a station leaves the cached distance right exactly when the route's new length is positive or
   the cache already said 0: a wrong cache on a route without length is not put right.
   */
  lemma AddAgreesExactly(d: Metric, n: Network, route: Id, lat: Option<real>, lon: Option<real>, provided: Option<int>)
    requires PseudoMetric(d) && route < |n.distances|
    ensures var n' := AddStationToRoute(d, n, route, lat, lon, provided).network;
            && route < |n'.distances|
            && (Agrees(d, n', route) <==>
                  PathLength(d, RouteStations(n'.stations, route)) > 0.0 || n.distances[route] == Some(0.0))
  {
    var row := Station(|n.stations|, route, lat, lon, NextSequence(n.stations, route, provided));
    RecalculatedAgrees(d, n.(stations := n.stations + [row]), route);
  }

  /** A wrong cache can survive: the first station of a route created with a distance leaves that distance. */
  lemma WrongCacheSurvives(d: Metric)
    requires PseudoMetric(d)
    ensures var n := Network([], [Some(5.0)]);
            var n' := AddStationToRoute(d, n, 0, Some(30.0), Some(31.0), None).network;
            |n'.distances| == 1 && !Agrees(d, n', 0)
  {
    AddAgreesExactly(d, Network([], [Some(5.0)]), 0, Some(30.0), Some(31.0), None);
    var n' := AddStationToRoute(d, Network([], [Some(5.0)]), 0, Some(30.0), Some(31.0), None).network;
    var row := Station(0, 0, Some(30.0), Some(31.0), 1);
    assert [] + [row] == [row];
    assert n'.stations == [row];
    FilterKeepsAll([row], OnRoute(0));
    assert Sorting.Sort<Station>([], BySequence) == [] && [row][1..] == [];
    assert RouteStations([row], 0) == [row];
  }

  lemma AddCached(d: Metric, n: Network, edit: Edit, q: Id)
    requires PseudoMetric(d) && edit.Add? && q < |n.distances|
    ensures var n' := Apply(d, n, edit).network;
            q < |n'.distances| && (Agrees(d, n', q) <==> Agrees(d, n, q) || Mends(d, n, edit, q))
  {
    var n' := Apply(d, n, edit).network;
    if edit.route < |n.distances| {
      var sequence := NextSequence(n.stations, edit.route, edit.provided);
      var row := Station(|n.stations|, edit.route, edit.lat, edit.lon, sequence);
      assert n'.stations == n.stations + [row];
      if q != edit.route {
        AppendOtherRoute(n.stations, row, q);
      } else {
        AddAgreesExactly(d, n, q, edit.lat, edit.lon, edit.provided);
        var before, after := RouteStations(n.stations, q), RouteStations(n'.stations, q);
        LengthNonNegative(d, after, |after|);
        if PathLength(d, after) == 0.0 {
          forall y | y in before ensures exists x :: x in after && At(x) == At(y) {
            RouteStationsMember(n.stations, q, y);
            RouteStationsMember(n'.stations, q, y);
          }
          ZeroSpreads(d, after, before);
        }
      }
    }
  }

  lemma AddDistinct(d: Metric, n: Network, edit: Edit, q: Id)
    requires edit.Add? && Careful(n, edit, q) && Distinct(n.stations, q)
    ensures Distinct(Apply(d, n, edit).network.stations, q)
  {
    if edit.route < |n.distances| {
      var row := Station(|n.stations|, edit.route, edit.lat, edit.lon,
                         NextSequence(n.stations, edit.route, edit.provided));
      assert Apply(d, n, edit).network.stations == n.stations + [row];
      if q != edit.route {
        AppendOtherRoute(n.stations, row, q);
      } else if edit.provided.None? {
        forall i: nat | i < |n.stations| && n.stations[i].route == q ensures n.stations[i].sequence != row.sequence {
          NextSequenceFree(n.stations, q, i);
        }
      }
    }
  }

  // ----- changing the order

  /** Renumbering changes nothing but sequence numbers, and only those of the stations listed. */
  lemma {:induction false} ResequencedRows(stations: seq<Station>, order: seq<(Id, int)>, i: nat)
    requires KnownStations(stations, order) && i < |stations|
    ensures var r := Resequenced(stations, order);
            && r[i] == stations[i].(sequence := r[i].sequence)
            && ((forall k :: 0 <= k < |order| ==> order[k].0 != i) ==> r[i] == stations[i])
  {
    if order != [] {
      ResequencedRows(stations, order[..|order| - 1], i);
    }
  }

  /** A station gets the last number listed for it. */
  lemma {:induction false} ResequencedListed(stations: seq<Station>, order: seq<(Id, int)>, k: nat)
    requires KnownStations(stations, order) && k < |order|
    requires forall l :: k < l < |order| ==> order[l].0 != order[k].0
    ensures Resequenced(stations, order)[order[k].0].sequence == order[k].1
  {
    var n := |order| - 1;
    if k < n {
      assert order[..n][k] == order[k];
      assert forall l :: 0 <= l < n ==> order[..n][l] == order[l];
      ResequencedListed(stations, order[..n], k);
    }
  }

  /**
   A manual order is accepted exactly when the route and every listed station exist; otherwise nothing changes.
   It gives each listed station the last number listed for it, changes nothing else in any station, and
   stores the length of the route, unless that is zero.
   */
  lemma OrderAccepted(d: Metric, n: Network, route: Id, order: seq<(Id, int)>)
    ensures var r := Apply(d, n, Reorder(route, order));
            var known := forall k :: 0 <= k < |order| ==> order[k].0 < |n.stations|;
            && (r.answer == Accepted <==> route < |n.distances| && known)
            && (route >= |n.distances| ==> r == Result(n, RouteMissing))
            && (route < |n.distances| && !known ==> r == Result(n, StationMissing))
            && (r.answer == Accepted ==>
                  && |r.network.stations| == |n.stations|
                  && (forall k: nat | k < |order| && (forall l :: k < l < |order| ==> order[l].0 != order[k].0) ::
                        r.network.stations[order[k].0] == n.stations[order[k].0].(sequence := order[k].1))
                  && (forall i: nat | i < |n.stations| && (forall k :: 0 <= k < |order| ==> order[k].0 != i) ::
                        r.network.stations[i] == n.stations[i])
                  && var length := PathLength(d, RouteStations(r.network.stations, route));
                     r.network.distances == if length > 0.0 then n.distances[route := Some(length)] else n.distances)
  {
    if KnownStations(n.stations, order) && route < |n.distances| {
      var after := Resequenced(n.stations, order);
      forall k: nat | k < |order| && (forall l :: k < l < |order| ==> order[l].0 != order[k].0)
        ensures after[order[k].0] == n.stations[order[k].0].(sequence := order[k].1)
      {
        ResequencedRows(n.stations, order, order[k].0);
        ResequencedListed(n.stations, order, k);
      }
      forall i: nat | i < |n.stations| && (forall k :: 0 <= k < |order| ==> order[k].0 != i)
        ensures after[i] == n.stations[i]
      {
        ResequencedRows(n.stations, order, i);
      }
    }
  }

  /** Renumbering that lists no station of a route leaves the reading of that route alone. */
  lemma ResequencedOtherRoute(stations: seq<Station>, order: seq<(Id, int)>, other: Id)
    requires KnownStations(stations, order)
    requires forall k :: 0 <= k < |order| ==> stations[order[k].0].route != other
    ensures RouteStations(Resequenced(stations, order), other) == RouteStations(stations, other)
    ensures Distinct(stations, other) ==> Distinct(Resequenced(stations, order), other)
  {
    var r := Resequenced(stations, order);
    forall i: nat | i < |stations|
      ensures r[i].route == stations[i].route && (stations[i].route == other ==> r[i] == stations[i])
    {
      ResequencedRows(stations, order, i);
    }
    FilterSame(stations, r, OnRoute(other));
  }

  lemma {:induction false} FilterSame(s: seq<Station>, t: seq<Station>, p: Station -> bool)
    requires |s| == |t| && forall i: nat :: i < |s| ==> p(s[i]) == p(t[i]) && (p(s[i]) ==> s[i] == t[i])
    ensures Filter(s, p) == Filter(t, p)
  {
    if s != [] {
      var n := |s| - 1;
      assert forall i: nat :: i < n ==> s[..n][i] == s[i] && t[..n][i] == t[i];
      FilterSame(s[..n], t[..n], p);
      assert p(s[n]) == p(t[n]);
    }
  }

  /** Renumbering moves no station, so each place on the route after it was there before. */
  lemma SamePlaces(stations: seq<Station>, order: seq<(Id, int)>, route: Id, y: Station)
    requires KnownStations(stations, order) && y in RouteStations(stations, route)
    ensures exists x :: x in RouteStations(Resequenced(stations, order), route) && At(x) == At(y)
  {
    var r := Resequenced(stations, order);
    RouteStationsMember(stations, route, y);
    var i :| 0 <= i < |stations| && stations[i] == y;
    ResequencedRows(stations, order, i);
    assert r[i] in r;
    RouteStationsMember(r, route, r[i]);
  }

  lemma OwnOrderCached(d: Metric, n: Network, edit: Edit, q: Id)
    requires PseudoMetric(d) && edit.Reorder? && edit.route == q < |n.distances|
    ensures var n' := Apply(d, n, edit).network;
            q < |n'.distances| && (Agrees(d, n', q) <==> Agrees(d, n, q) || Mends(d, n, edit, q))
  {
    if KnownStations(n.stations, edit.order) {
      var r := Resequenced(n.stations, edit.order);
      RecalculatedAgrees(d, n.(stations := r), q);
      var before, after := RouteStations(n.stations, q), RouteStations(r, q);
      LengthNonNegative(d, after, |after|);
      if PathLength(d, after) == 0.0 {
        forall y | y in before ensures exists x :: x in after && At(x) == At(y) {
          SamePlaces(n.stations, edit.order, q, y);
        }
        ZeroSpreads(d, after, before);
      }
    }
  }

  lemma OtherOrderCached(d: Metric, n: Network, edit: Edit, q: Id)
    requires PseudoMetric(d) && edit.Reorder? && edit.route != q < |n.distances| && Spares(n, edit, q)
    ensures var n' := Apply(d, n, edit).network;
            q < |n'.distances| && (Agrees(d, n', q) <==> Agrees(d, n, q))
  {
    if edit.route < |n.distances| && KnownStations(n.stations, edit.order) {
      SameLegsSameLength(d, RouteStations(Resequenced(n.stations, edit.order), q), RouteStations(n.stations, q));
    }
  }

  /** An order of another route that lists no station of this one spares it and keeps its numbers distinct. */
  lemma UnlistedSpared(n: Network, edit: Edit, q: Id)
    requires edit.Reorder? && KnownStations(n.stations, edit.order)
    requires forall k :: 0 <= k < |edit.order| ==> n.stations[edit.order[k].0].route != q
    ensures Spares(n, edit, q)
    ensures Distinct(n.stations, q) ==> Careful(n, edit, q)
  {
    ResequencedOtherRoute(n.stations, edit.order, q);
  }

  // ----- ordering by proximity

  /** The stations of an order with their new numbers. */
  function Renumbered(ordered: seq<Station>): (r: seq<Station>)
    ensures |r| == |ordered|
  {
    seq(|ordered|, k requires 0 <= k < |ordered| => ordered[k].(sequence := k + 1))
  }

  lemma RenumberedStrict(ordered: seq<Station>)
    ensures Sorting.Strict(Renumbered(ordered), BySequence)
  {
    var rows := Renumbered(ordered);
    forall i, j | 0 <= i < j < |rows| ensures !BySequence(rows[j], rows[i]) {
      assert rows[i].sequence == i + 1 && rows[j].sequence == j + 1;
    }
  }

  predicate ById(a: Station, b: Station) {
    a.id <= b.id
  }

  /** Filtered rows of the table come in strict order of their ids. */
  lemma {:induction false} FilterById(stations: seq<Station>, p: Station -> bool)
    requires forall i: nat | i < |stations| :: stations[i].id == i
    ensures Sorting.TotalPreorder(ById) && Sorting.Strict(Filter(stations, p), ById)
    ensures forall x :: x in Filter(stations, p) ==> x.id < |stations|
  {
    if stations != [] {
      var m := |stations| - 1;
      FilterById(stations[..m], p);
      var earlier := Filter(stations[..m], p);
      forall i | 0 <= i < |earlier| ensures earlier[i].id < m {
        assert earlier[i] in earlier;
      }
    }
  }

  /** The stations of a route in proximity order: known rows of the route, each exactly once. */
  lemma OrderedRows(d: Metric, n: Network, route: Id)
    requires Sound(n)
    ensures var ordered := OrderByProximity(d, RouteStations(n.stations, route));
            && (forall k: nat :: k < |ordered| ==>
                  ordered[k].id < |n.stations| && n.stations[ordered[k].id] == ordered[k]
                                                   && ordered[k].route == route)
            && (forall k: nat, l: nat :: k < l < |ordered| ==> ordered[k].id != ordered[l].id)
            && (forall i: nat :: i < |n.stations| && n.stations[i].route == route ==> n.stations[i] in ordered)
            && KnownStations(n.stations, Numbering(ordered))
  {
    var rows := RouteStations(n.stations, route);
    var ordered := OrderByProximity(d, rows);
    OrderPermutes(d, rows);
    var found := Filter(n.stations, OnRoute(route));
    Sorting.SortElements(found, BySequence);
    FilterById(n.stations, OnRoute(route));
    forall k: nat | k < |ordered|
      ensures ordered[k].id < |n.stations| && n.stations[ordered[k].id] == ordered[k] && ordered[k].route == route
    {
      assert ordered[k] in multiset(rows);
      RouteStationsMember(n.stations, route, ordered[k]);
    }
    forall k: nat, l: nat | k < l < |ordered| ensures ordered[k].id != ordered[l].id {
      Sorting.PermutedOnce(found, ordered, ById, k, l);
    }
    forall i: nat | i < |n.stations| && n.stations[i].route == route ensures n.stations[i] in ordered {
      RouteStationsMember(n.stations, route, n.stations[i]);
      assert n.stations[i] in multiset(ordered);
    }
    forall k | 0 <= k < |ordered| ensures Numbering(ordered)[k].0 < |n.stations| {
      assert Numbering(ordered)[k].0 == ordered[k].id;
    }
  }

  /** After the transaction the k-th station of the order carries number k + 1. */
  lemma OrderStored(d: Metric, n: Network, route: Id, k: nat)
    requires Sound(n)
    requires k < |OrderByProximity(d, RouteStations(n.stations, route))|
    ensures var ordered := OrderByProximity(d, RouteStations(n.stations, route));
            && KnownStations(n.stations, Numbering(ordered))
            && ordered[k].id < |n.stations|
            && Resequenced(n.stations, Numbering(ordered))[ordered[k].id] == Renumbered(ordered)[k]
  {
    OrderedRows(d, n, route);
    var ordered := OrderByProximity(d, RouteStations(n.stations, route));
    var order := Numbering(ordered);
    assert order[k] == (ordered[k].id, k + 1);
    forall l | 0 <= l < |order| && l != k ensures order[l].0 != order[k].0 {
      assert order[l].0 == ordered[l].id;
    }
    ResequencedRows(n.stations, order, ordered[k].id);
    ResequencedListed(n.stations, order, k);
  }

  /** A row of the route after the transaction is one of the renumbered stations. */
  lemma StoredRow(d: Metric, n: Network, route: Id, i: nat) returns (k: nat)
    requires Sound(n) && i < |n.stations| && n.stations[i].route == route
    ensures var ordered := OrderByProximity(d, RouteStations(n.stations, route));
            && KnownStations(n.stations, Numbering(ordered))
            && k < |ordered| && ordered[k].id == i
            && Resequenced(n.stations, Numbering(ordered))[i] == Renumbered(ordered)[k]
  {
    OrderedRows(d, n, route);
    var ordered := OrderByProximity(d, RouteStations(n.stations, route));
    k :| 0 <= k < |ordered| && ordered[k] == n.stations[i];
    OrderStored(d, n, route, k);
  }

  lemma StoredPair(d: Metric, n: Network, route: Id, i: nat, j: nat)
    requires Sound(n) && i < j < |n.stations|
    requires n.stations[i].route == route && n.stations[j].route == route
    ensures var order := Numbering(OrderByProximity(d, RouteStations(n.stations, route)));
            && KnownStations(n.stations, order)
            && Resequenced(n.stations, order)[i].sequence != Resequenced(n.stations, order)[j].sequence
  {
    var k := StoredRow(d, n, route, i);
    var l := StoredRow(d, n, route, j);
    var rows := Renumbered(OrderByProximity(d, RouteStations(n.stations, route)));
    assert rows[k].sequence == k + 1 && rows[l].sequence == l + 1;
  }

  lemma StoredDistinct(d: Metric, n: Network, route: Id)
    requires Sound(n)
    ensures var order := Numbering(OrderByProximity(d, RouteStations(n.stations, route)));
            KnownStations(n.stations, order) && Distinct(Resequenced(n.stations, order), route)
  {
    OrderedRows(d, n, route);
    var order := Numbering(OrderByProximity(d, RouteStations(n.stations, route)));
    var r := Resequenced(n.stations, order);
    forall i: nat | i < |r| ensures r[i].route == n.stations[i].route {
      ResequencedRows(n.stations, order, i);
    }
    forall i: nat, j: nat | i < j < |r| && r[i].route == route && r[j].route == route
      ensures r[i].sequence != r[j].sequence
    {
      StoredPair(d, n, route, i, j);
    }
  }

  lemma StoredMember(d: Metric, n: Network, route: Id, x: Station)
    requires Sound(n)
    ensures var ordered := OrderByProximity(d, RouteStations(n.stations, route));
            && KnownStations(n.stations, Numbering(ordered))
            && (x in Renumbered(ordered) <==> x in Resequenced(n.stations, Numbering(ordered)) && x.route == route)
  {
    OrderedRows(d, n, route);
    var ordered := OrderByProximity(d, RouteStations(n.stations, route));
    var r, rows := Resequenced(n.stations, Numbering(ordered)), Renumbered(ordered);
    if x in rows {
      var k: nat :| k < |rows| && rows[k] == x;
      OrderStored(d, n, route, k);
      assert r[ordered[k].id] in r;
    }
    if x in r && x.route == route {
      var i: nat :| i < |r| && r[i] == x;
      ResequencedRows(n.stations, Numbering(ordered), i);
      var k := StoredRow(d, n, route, i);
      assert rows[k] in rows;
    }
  }

  /**
   Whatever numbers the stations had, repeated ones included, they are distinct afterwards: read again by
   sequence, the stations come in exactly the proximity order, and the cache is its length.
   */
  lemma ProximityStored(d: Metric, n: Network, route: Id)
    requires Sound(n) && |RouteStations(n.stations, route)| >= 2
    ensures var ordered := OrderByProximity(d, RouteStations(n.stations, route));
            var n' := ReorderByProximity(d, n, route).network;
            && KnownStations(n.stations, Numbering(ordered))
            && n'.stations == Resequenced(n.stations, Numbering(ordered))
            && route < |n'.distances| == |n.distances|
            && n'.distances == n.distances[route := Some(PathLength(d, ordered))]
            && Distinct(n'.stations, route)
            && RouteStations(n'.stations, route) == Renumbered(ordered)
            && Agrees(d, n', route)
  {
    var rows := RouteStations(n.stations, route);
    var ordered := OrderByProximity(d, rows);
    RouteStationsMember(n.stations, route, rows[0]);
    OrderedRows(d, n, route);
    var r := Resequenced(n.stations, Numbering(ordered));
    StoredDistinct(d, n, route);
    RenumberedStrict(ordered);
    forall x ensures x in Renumbered(ordered) <==> x in r && x.route == route {
      StoredMember(d, n, route, x);
    }
    RouteStationsAre(r, route, Renumbered(ordered));
    SameWay(d, ordered, Renumbered(ordered), |ordered|);
  }

  /** A proximity order never fails, and leaves a route with fewer than two stations alone. */
  lemma ProximityAnswers(d: Metric, n: Network, route: Id)
    requires Sound(n)
    ensures var r := Apply(d, n, Proximate(route));
            && r.answer == Accepted
            && ((forall i: nat, j: nat | i < j < |n.stations| ::
                   n.stations[i].route != route || n.stations[j].route != route) ==> r.network == n)
  {
    var rows := RouteStations(n.stations, route);
    if |rows| >= 2 {
      ProximityStored(d, n, route);
      OrderedRows(d, n, route);
      var ordered := OrderByProximity(d, rows);
      OrderPermutes(d, rows);
      assert |multiset(ordered)| == |multiset(rows)|;
      var i, j := ordered[0].id, ordered[1].id;
      assert n.stations[i].route == route && n.stations[j].route == route;
    }
  }

  lemma ProximateSound(d: Metric, n: Network, route: Id)
    requires Sound(n)
    ensures var n' := ReorderByProximity(d, n, route).network; Sound(n') && |n'.distances| == |n.distances|
  {
    if |RouteStations(n.stations, route)| >= 2 {
      ProximityStored(d, n, route);
      var order := Numbering(OrderByProximity(d, RouteStations(n.stations, route)));
      var r := Resequenced(n.stations, order);
      forall i: nat | i < |r| ensures r[i].id == i && r[i].route < |n.distances| {
        ResequencedRows(n.stations, order, i);
      }
    }
  }

  /** A proximity reorder of one route leaves every other route's reading and cache alone. */
  lemma ProximateOther(d: Metric, n: Network, route: Id, q: Id)
    requires Sound(n) && q != route && q < |n.distances|
    ensures var n' := ReorderByProximity(d, n, route).network;
            && |n'.distances| == |n.distances| && n'.distances[q] == n.distances[q]
            && RouteStations(n'.stations, q) == RouteStations(n.stations, q)
            && (Distinct(n.stations, q) ==> Distinct(n'.stations, q))
  {
    if |RouteStations(n.stations, route)| >= 2 {
      ProximityStored(d, n, route);
      OrderedRows(d, n, route);
      var order := Numbering(OrderByProximity(d, RouteStations(n.stations, route)));
      ResequencedOtherRoute(n.stations, order, q);
    }
  }

  lemma ProximateCached(d: Metric, n: Network, edit: Edit, q: Id)
    requires Sound(n) && edit.Proximate? && q < |n.distances|
    ensures var n' := Apply(d, n, edit).network;
            q < |n'.distances| && (Agrees(d, n', q) <==> Agrees(d, n, q) || Mends(d, n, edit, q))
  {
    if q != edit.route {
      ProximateOther(d, n, edit.route, q);
    } else if |RouteStations(n.stations, q)| >= 2 {
      ProximityStored(d, n, q);
    }
  }

  lemma ProximateDistinct(d: Metric, n: Network, route: Id, q: Id)
    requires Sound(n) && q < |n.distances| && Distinct(n.stations, q)
    ensures Distinct(ReorderByProximity(d, n, route).network.stations, q)
  {
    if q != route {
      ProximateOther(d, n, route, q);
    } else if |RouteStations(n.stations, route)| >= 2 {
      ProximityStored(d, n, route);
    }
  }

  lemma RenumberedGreedy(d: Metric, ordered: seq<Station>)
    requires GreedyTour(d, ordered)
    ensures GreedyTour(d, Renumbered(ordered))
  {
    var s := Renumbered(ordered);
    forall i: nat, j: nat | i + 1 < j < |s| && Located(s[j]) ensures NextNearer(d, s, i, j) {
      assert NextNearer(d, ordered, i, j);
    }
  }

  lemma NumberedRow(d: Metric, n: Network, route: Id, k: nat)
    requires Sound(n)
    requires k < |OrderByProximity(d, RouteStations(n.stations, route))|
    ensures var ordered := OrderByProximity(d, RouteStations(n.stations, route));
            var order := Numbering(ordered);
            && KnownStations(n.stations, order) && ordered[k].id < |n.stations|
            && (var r := Resequenced(n.stations, order);
                Resequenced(r, order)[ordered[k].id].sequence == r[ordered[k].id].sequence)
  {
    OrderStored(d, n, route, k);
    OrderedRows(d, n, route);
    var ordered := OrderByProximity(d, RouteStations(n.stations, route));
    var order := Numbering(ordered);
    assert order[k] == (ordered[k].id, k + 1);
    forall l | 0 <= l < |order| && l != k ensures order[l].0 != order[k].0 {
      assert order[l].0 == ordered[l].id;
    }
    ResequencedListed(Resequenced(n.stations, order), order, k);
  }

  /** Giving the stations of the stored order their numbers again changes no row. */
  lemma NumberedAgain(d: Metric, n: Network, route: Id)
    requires Sound(n)
    ensures var order := Numbering(OrderByProximity(d, RouteStations(n.stations, route)));
            && KnownStations(n.stations, order)
            && Resequenced(Resequenced(n.stations, order), order) == Resequenced(n.stations, order)
  {
    OrderedRows(d, n, route);
    var ordered := OrderByProximity(d, RouteStations(n.stations, route));
    var order := Numbering(ordered);
    var r := Resequenced(n.stations, order);
    forall i: nat | i < |r| ensures Resequenced(r, order)[i] == r[i] {
      ResequencedRows(r, order, i);
      if k: nat :| k < |order| && order[k].0 == i {
        assert order[k].0 == ordered[k].id;
        NumberedRow(d, n, route, k);
      }
    }
  }

  /** The stored order is a nearest-neighbour tour, so ordering it again gives the same stations the same numbers. */
  lemma OrderedAgain(d: Metric, rows: seq<Station>)
    ensures var ordered := OrderByProximity(d, rows);
            && |ordered| == |rows|
            && OrderByProximity(d, Renumbered(ordered)) == Renumbered(ordered)
            && Numbering(Renumbered(ordered)) == Numbering(ordered)
            && PathLength(d, Renumbered(ordered)) == PathLength(d, ordered)
  {
    var ordered := OrderByProximity(d, rows);
    OrderPermutes(d, rows);
    assert |multiset(ordered)| == |multiset(rows)|;
    OrderGreedy(d, rows);
    RenumberedGreedy(d, ordered);
    GreedyFixed(d, Renumbered(ordered));
    assert Numbering(Renumbered(ordered)) == Numbering(ordered);
    SameWay(d, ordered, Renumbered(ordered), |ordered|);
  }

  /** Ordering any route by proximity a second time changes nothing at all: no sequence number and no distance. */
  lemma ProximityIdempotent(d: Metric, n: Network, route: Id)
    requires Sound(n)
    ensures var once := ReorderByProximity(d, n, route).network;
            ReorderByProximity(d, once, route) == Result(once, Accepted)
  {
    var rows := RouteStations(n.stations, route);
    if |rows| >= 2 {
      var once := ReorderByProximity(d, n, route).network;
      ProximityStored(d, n, route);
      OrderedAgain(d, rows);
      NumberedAgain(d, n, route);
      assert once.distances[route := once.distances[route]] == once.distances;
    }
  }

  // ----- runs

  lemma SoundStep(d: Metric, n: Network, edit: Edit)
    requires Sound(n)
    ensures var n' := Apply(d, n, edit).network; Sound(n') && |n'.distances| == |n.distances|
  {
    match edit {
      case Add(_, _, _, _) =>
      case Reorder(route, order) =>
        if KnownStations(n.stations, order) {
          var r := Resequenced(n.stations, order);
          forall i: nat | i < |r| ensures r[i].id == i && r[i].route < |n.distances| {
            ResequencedRows(n.stations, order, i);
          }
        }
      case Proximate(route) => ProximateSound(d, n, route);
    }
  }

  /**
   After an edit that spares the route, its cache is right exactly when it was right before or the edit
   stored its length; no edit turns a right cache into a wrong one, although a total of zero is never stored.
   */
  lemma CacheStep(d: Metric, n: Network, edit: Edit, q: Id)
    requires PseudoMetric(d) && Sound(n) && q < |n.distances| && Spares(n, edit, q)
    ensures var n' := Apply(d, n, edit).network;
            q < |n'.distances| && (Agrees(d, n', q) <==> Agrees(d, n, q) || Mends(d, n, edit, q))
  {
    match edit {
      case Add(_, _, _, _) => AddCached(d, n, edit, q);
      case Reorder(route, _) =>
        if route == q { OwnOrderCached(d, n, edit, q); } else { OtherOrderCached(d, n, edit, q); }
      case Proximate(_) => ProximateCached(d, n, edit, q);
    }
  }

  /** Every edit of the run spares the route in the state it meets. */
  ghost predicate AllSpare(d: Metric, n: Network, edits: seq<Edit>, q: Id) {
    forall k: nat | k < |edits| :: SparesAt(d, n, edits, k, q)
  }

  predicate SparesAt(d: Metric, n: Network, edits: seq<Edit>, k: nat, q: Id)
    requires k < |edits|
  {
    Spares(Run(d, n, edits[..k]), edits[k], q)
  }

  /** Some edit of the run stores the length of the route. */
  ghost predicate SomeMends(d: Metric, n: Network, edits: seq<Edit>, q: Id) {
    exists k: nat | k < |edits| :: MendsAt(d, n, edits, k, q)
  }

  predicate MendsAt(d: Metric, n: Network, edits: seq<Edit>, k: nat, q: Id)
    requires k < |edits|
  {
    Mends(d, Run(d, n, edits[..k]), edits[k], q)
  }

  lemma RunFront(d: Metric, n: Network, front: seq<Edit>, last: Edit, q: Id)
    ensures Run(d, n, front + [last]) == Apply(d, Run(d, n, front), last).network
    ensures AllSpare(d, n, front + [last], q) <==> AllSpare(d, n, front, q) && Spares(Run(d, n, front), last, q)
    ensures SomeMends(d, n, front + [last], q) <==> SomeMends(d, n, front, q) || Mends(d, Run(d, n, front), last, q)
  {
    var edits := front + [last];
    assert edits[..|front|] == front;
    forall k: nat | k < |front|
      ensures SparesAt(d, n, edits, k, q) == SparesAt(d, n, front, k, q)
      ensures MendsAt(d, n, edits, k, q) == MendsAt(d, n, front, k, q)
    {
      assert front[..k] == edits[..k];
    }
    assert SparesAt(d, n, edits, |front|, q) == Spares(Run(d, n, front), last, q);
    assert MendsAt(d, n, edits, |front|, q) == Mends(d, Run(d, n, front), last, q);
    if SomeMends(d, n, front, q) {
      var k: nat :| k < |front| && MendsAt(d, n, front, k, q);
      assert MendsAt(d, n, edits, k, q);
    }
  }

  lemma {:induction false} SoundRun(d: Metric, n: Network, edits: seq<Edit>)
    requires Sound(n)
    ensures Sound(Run(d, n, edits)) && |Run(d, n, edits).distances| == |n.distances|
  {
    if edits != [] {
      SoundRun(d, n, edits[..|edits| - 1]);
      SoundStep(d, Run(d, n, edits[..|edits| - 1]), edits[|edits| - 1]);
    }
  }

  /**
   After every run of adding stations, manual orders and proximity orders that spare the route, its cached
   distance is the length of the way through its stations exactly when it was so at the start or some
   edit stored its length on the way.
   */
  lemma {:induction false} CacheRun(d: Metric, n: Network, edits: seq<Edit>, q: Id)
    requires PseudoMetric(d) && Sound(n) && q < |n.distances| && AllSpare(d, n, edits, q)
    ensures var n' := Run(d, n, edits);
            q < |n'.distances| && (Agrees(d, n', q) <==> Agrees(d, n, q) || SomeMends(d, n, edits, q))
  {
    if edits != [] {
      var front, last := edits[..|edits| - 1], edits[|edits| - 1];
      assert edits == front + [last];
      RunFront(d, n, front, last, q);
      CacheRun(d, n, front, q);
      SoundRun(d, n, front);
      CacheStep(d, Run(d, n, front), last, q);
    }
  }

  lemma DistinctStep(d: Metric, n: Network, edit: Edit, q: Id)
    requires Sound(n) && q < |n.distances| && Distinct(n.stations, q) && Careful(n, edit, q)
    ensures Distinct(Apply(d, n, edit).network.stations, q)
  {
    match edit {
      case Add(_, _, _, _) => AddDistinct(d, n, edit, q);
      case Reorder(_, _) =>
      case Proximate(route) => ProximateDistinct(d, n, route, q);
    }
  }

  lemma {:induction false} DistinctRun(d: Metric, n: Network, edits: seq<Edit>, q: Id)
    requires Sound(n) && q < |n.distances| && Distinct(n.stations, q)
    requires forall k :: 0 <= k < |edits| ==> Careful(Run(d, n, edits[..k]), edits[k], q)
    ensures Distinct(Run(d, n, edits).stations, q)
  {
    if edits != [] {
      var m := |edits| - 1;
      var front := edits[..m];
      forall k | 0 <= k < m ensures Careful(Run(d, n, front[..k]), front[k], q) {
        assert front[..k] == edits[..k];
      }
      DistinctRun(d, n, front, q);
      SoundRun(d, n, front);
      assert Careful(Run(d, n, front), edits[m], q);
      DistinctStep(d, Run(d, n, front), edits[m], q);
    }
  }

  /**
   With care for its numbers, a route with distinct numbers and a right cache keeps both in every run that
   spares it.
   */
  lemma {:induction false} CacheAgrees(d: Metric, n: Network, edits: seq<Edit>, q: Id)
    requires PseudoMetric(d) && Sound(n) && q < |n.distances| && AllSpare(d, n, edits, q)
    requires Distinct(n.stations, q) && Agrees(d, n, q)
    requires forall k :: 0 <= k < |edits| ==> Careful(Run(d, n, edits[..k]), edits[k], q)
    ensures var n' := Run(d, n, edits);
            Sound(n') && q < |n'.distances| && Distinct(n'.stations, q) && Agrees(d, n', q)
  {
    SoundRun(d, n, edits);
    CacheRun(d, n, edits, q);
    DistinctRun(d, n, edits, q);
  }

  // ----- orders of other routes

  /** The tables with the cache of a route put right. */
  function Measured(d: Metric, n: Network, q: Id): Network
    requires q < |n.distances|
  {
    n.(distances := n.distances[q := Some(PathLength(d, RouteStations(n.stations, q)))])
  }

  /**
   Whatever the distances are, an edit keeps a right cache of a route right exactly when it spares it: the only
   edits that can do harm are manual orders of other routes after which its stations travel other legs.
   */
  lemma {:induction false} SparingKeepsCache(n: Network, edit: Edit, q: Id)
    requires Sound(n) && q < |n.distances|
    ensures (forall d: Metric | PseudoMetric(d) :: KeepsCache(d, n, edit, q)) <==> Spares(n, edit, q)
  {
    if Spares(n, edit, q) {
      forall d: Metric | PseudoMetric(d) ensures KeepsCache(d, n, edit, q) {
        assert Agrees(d, Measured(d, n, q), q);
        CacheStep(d, Measured(d, n, q), edit, q);
      }
    } else {
      var before, after := RouteStations(n.stations, q), RouteStations(Resequenced(n.stations, edit.order), q);
      LegsDecideLength(before, after);
      var d: Metric :| PseudoMetric(d) && PathLength(d, before) != PathLength(d, after);
      OtherOrderLength(d, n, edit, q);
    }
  }

  ghost predicate KeepsCache(d: Metric, n: Network, edit: Edit, q: Id)
    requires q < |n.distances|
  {
    var n' := Apply(d, Measured(d, n, q), edit).network;
    q < |n'.distances| && Agrees(d, n', q)
  }

  lemma OtherOrderLength(d: Metric, n: Network, edit: Edit, q: Id)
    requires edit.Reorder? && edit.route != q < |n.distances|
    requires edit.route < |n.distances| && KnownStations(n.stations, edit.order)
    ensures KeepsCache(d, n, edit, q) <==> PathLength(d, RouteStations(n.stations, q)) ==
                                           PathLength(d, RouteStations(Resequenced(n.stations, edit.order), q))
  {
  }

  /** A manual order of another route that lists a station of this one and makes its cache wrong. */
  lemma ForeignOrderBreaks(d: Metric)
    requires PseudoMetric(d) && d(Point(0.0, 0.0), Point(0.0, 1.0)) > 0.0
    ensures var stations := [Station(0, 0, Some(0.0), Some(0.0), 1), Station(1, 0, Some(0.0), Some(1.0), 2),
                             Station(2, 0, Some(0.0), Some(0.0), 3)];
            var far := d(Point(0.0, 0.0), Point(0.0, 1.0));
            var n := Network(stations, [Some(2.0 * far), Some(0.0)]);
            var n' := ReorderStations(d, n, 1, [(1, 9)]).network;
            Agrees(d, n, 0) && |n'.distances| == 2 && !Agrees(d, n', 0)
  {
    var a, b := Station(0, 0, Some(0.0), Some(0.0), 1), Station(1, 0, Some(0.0), Some(1.0), 2);
    var c := Station(2, 0, Some(0.0), Some(0.0), 3);
    var cached := Some(2.0 * d(Point(0.0, 0.0), Point(0.0, 1.0)));
    ThreeAgree(d, a, b, c, a, b, c, cached);
    ForeignOrder(d, a, b, c, cached);
    var b' := b.(sequence := 9);
    ThreeAgree(d, a, b', c, a, c, b', cached);
  }

  /** When the cache is right for three stations a, b and c that stand in the order x, y, z. */
  lemma ThreeAgree(d: Metric, a: Station, b: Station, c: Station, x: Station, y: Station, z: Station,
                   cached: Option<real>)
    requires a.route == b.route == c.route == 0 && x.sequence < y.sequence < z.sequence
    requires [x, y, z] == [a, b, c] || [x, y, z] == [a, c, b]
    ensures Agrees(d, Network([a, b, c], [cached, Some(0.0)]), 0) <==> cached == Some(d(At(x), At(y)) + d(At(y), At(z)))
  {
    RouteStationsAre([a, b, c], 0, [x, y, z]);
    ThreeLong(d, x, y, z);
  }

  lemma ForeignOrder(d: Metric, a: Station, b: Station, c: Station, cached: Option<real>)
    requires a.route == b.route == c.route == 0
    ensures ReorderStations(d, Network([a, b, c], [cached, Some(0.0)]), 1, [(1, 9)]).network ==
            Network([a, b.(sequence := 9), c], [cached, Some(0.0)])
  {
    var after := [a, b.(sequence := 9), c];
    assert [(1, 9)][..0] == [];
    assert Resequenced([a, b, c], [(1, 9)]) == after;
    FilterKeepsNone(after, OnRoute(1));
  }

  lemma ThreeLong(d: Metric, a: Station, b: Station, c: Station)
    ensures PathLength(d, [a, b, c]) == d(At(a), At(b)) + d(At(b), At(c))
  {
    assert LengthTo(d, [a, b, c], 1) == 0.0;
    assert LengthTo(d, [a, b, c], 2) == d(At(a), At(b));
  }
}
