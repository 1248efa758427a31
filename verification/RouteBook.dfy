/** The route services as they run, changing station and route rows one by one. */
module RouteBook {
  import opened Options
  import opened Tables
  import opened Collections
  import opened Proximity
  import opened Routes

  class RouteBook {
    const d: Metric
    var stations: seq<Station>
    var distances: seq<Option<real>>

    function State(): Network
      reads this
    {
      Network(stations, distances)
    }

    constructor (d: Metric, stations: seq<Station>, distances: seq<Option<real>>)
      ensures this.d == d && State() == Network(stations, distances)
    {
      this.d, this.stations, this.distances := d, stations, distances;
    }

    method RecalculateRouteDistance(route: Id)
      requires route < |distances|
      modifies this`distances
      ensures State() == Recalculated(d, old(State()), route)
    {
      var rows := RouteStations(stations, route);
      var total := CalculateTotalRouteDistance(d, Filled(rows));
      FilledTotal(d, rows);
      if total > 0.0 {
        distances := distances[route := Some(total)];
      }
    }

    method AddStation(route: Id, lat: Option<real>, lon: Option<real>, provided: Option<int>) returns (answer: Answer)
      modifies this
      ensures Result(State(), answer) == Apply(d, old(State()), Add(route, lat, lon, provided))
    {
      if route >= |distances| { return RouteMissing; }
      var sequence := NextSequence(stations, route, provided);
      stations := stations + [Station(|stations|, route, lat, lon, sequence)];
      RecalculateRouteDistance(route);
      return Accepted;
    }

    /** The update loop inside the transactions; the ids are known. */
    method UpdateSequences(order: seq<(Id, int)>)
      requires KnownStations(stations, order)
      modifies this`stations
      ensures stations == Resequenced(old(stations), order)
    {
      for k := 0 to |order|
        invariant |stations| == |old(stations)|
        invariant KnownStations(old(stations), order[..k]) && stations == Resequenced(old(stations), order[..k])
      {
        var (id, sequence) := order[k];
        assert order[..k + 1][..k] == order[..k];
        stations := stations[id := stations[id].(sequence := sequence)];
      }
      assert order[..|order|] == order;
    }

    method ReorderStations(route: Id, order: seq<(Id, int)>) returns (answer: Answer)
      modifies this
      ensures Result(State(), answer) == Apply(d, old(State()), Reorder(route, order))
    {
      if route >= |distances| { return RouteMissing; }
      if !KnownStations(stations, order) { return StationMissing; }
      UpdateSequences(order);
      RecalculateRouteDistance(route);
      return Accepted;
    }

    /** The stations of the route must be rows of the table, as its foreign keys see to. */
    method ReorderStationsByProximity(route: Id) returns (answer: Answer)
      requires Sound(State())
      modifies this
      ensures Result(State(), answer) == Apply(d, old(State()), Proximate(route))
    {
      var rows := RouteStations(stations, route);
      if |rows| < 2 { return Accepted; }
      RouteStationsMember(stations, route, rows[0]);
      var ordered := OrderStationsByProximity(d, rows);
      var order := Numbering(ordered);
      if !KnownStations(stations, order) { return StationMissing; }
      UpdateSequences(order);
      var total := CalculateTotalRouteDistance(d, Filled(ordered));
      FilledTotal(d, ordered);
      distances := distances[route := Some(total)];
      return Accepted;
    }
  }
}
