/** Which buses are free in a time slot, and how that relates to the check made when a trip is created. */
module Buses {
  import opened Options
  import opened Tables
  import opened Collections
  import opened Scheduling

  /** Statuses the bus repository counts as occupying: the live ones and delayed. */
  predicate Occupying(status: TripStatus) {
    Live(status) || status.Delayed?
  }

  function ConflictingTrip(bus: Id, start: int, end: int): Trip -> bool {
    (t: Trip) => t.bus == Some(bus) && Occupying(t.status) && !t.deleted && Conflicts(t, start, end)
  }

  predicate IsActive(db: Db, bus: Id) {
    BusExists(db.reference, bus) && db.reference.buses[bus].status.InService?
  }

  /** None when the bus does not exist. */
  function IsBusAvailable(db: Db, bus: Id, start: int, end: int): Option<bool> {
    if !BusExists(db.reference, bus) then None
    else if !db.reference.buses[bus].status.InService? then Some(false)
    else Some(Count(db.trips, ConflictingTrip(bus, start, end)) == 0)
  }

  /** No trip of the bus that is live or delayed has a moment in common with the window. */
  ghost predicate Unoccupied(db: Db, bus: Id, start: int, end: int) {
    forall i: nat | i < |db.trips| && db.trips[i].bus == Some(bus)
                  && !db.trips[i].deleted && db.trips[i].status in {Scheduled, Boarding, InProgress, Delayed}
                    && db.trips[i].departure.Some? && db.trips[i].arrival.Some? ::
      !Overlap(db.trips[i].departure.value, db.trips[i].arrival.value, start, end)
  }

  lemma CountIsOverlap(db: Db, bus: Id, start: int, end: int)
    requires TimesInOrder(db.trips) && start <= end
    ensures Count(db.trips, ConflictingTrip(bus, start, end)) == 0 <==> Unoccupied(db, bus, start, end)
  {
    CountPositive(db.trips, ConflictingTrip(bus, start, end));
    forall i: nat | i < |db.trips| && db.trips[i].departure.Some? && db.trips[i].arrival.Some?
      ensures Conflicts(db.trips[i], start, end) <==>
              Overlap(db.trips[i].departure.value, db.trips[i].arrival.value, start, end)
    {
      ConflictIsOverlap(db.trips[i], start, end);
    }
  }

  function ActiveBuses(db: Db, n: nat): seq<Id> {
    if n == 0 then [] else ActiveBuses(db, n - 1) + (if IsActive(db, n - 1) then [n - 1] else [])
  }

  lemma {:induction false} ActiveBusesAre(db: Db, n: nat)
    ensures forall b: nat :: b in ActiveBuses(db, n) <==> b < n && IsActive(db, b)
    ensures forall i, j :: 0 <= i < j < |ActiveBuses(db, n)| ==> ActiveBuses(db, n)[i] < ActiveBuses(db, n)[j]
  {
    if n > 0 {
      ActiveBusesAre(db, n - 1);
      var earlier := ActiveBuses(db, n - 1);
      assert forall i :: 0 <= i < |earlier| ==> earlier[i] in earlier;
    }
  }

  /** The loop over the active buses, in id order. */
  method GetAvailableBuses(db: Db, start: int, end: int) returns (available: seq<Id>)
    ensures forall b: nat :: b in available <==> IsActive(db, b) && IsBusAvailable(db, b, start, end) == Some(true)
    ensures forall i, j :: 0 <= i < j < |available| ==> available[i] < available[j]
  {
    var active := ActiveBuses(db, |db.reference.buses|);
    ActiveBusesAre(db, |db.reference.buses|);
    available := [];
    for k := 0 to |active|
      invariant forall b: nat :: b in available <==> b in active[..k] && IsBusAvailable(db, b, start, end) == Some(true)
      invariant forall i, j :: 0 <= i < j < |available| ==> available[i] < available[j]
      invariant forall i :: 0 <= i < |available| ==> available[i] in active[..k]
    {
      var bus := active[k];
      assert active[..k + 1] == active[..k] + [bus];
      assert forall b :: b in active[..k] ==> b < bus;
      var ok := IsBusAvailable(db, bus, start, end);
      if ok == Some(true) {
        available := available + [bus];
      }
    }
    assert active[..|active|] == active;
  }

  /**
   For a proper window, a bus is available exactly when it is in service and no live or delayed trip of it
   overlaps; asking fails exactly for a bus that is missing.
   */
  lemma AvailableMeansUnoccupied(db: Db, bus: Id, start: int, end: int)
    requires TimesInOrder(db.trips) && start <= end
    ensures IsBusAvailable(db, bus, start, end).Some? <==>
            bus < |db.reference.buses| && !db.reference.buses[bus].deleted
    ensures IsBusAvailable(db, bus, start, end) == Some(true) <==>
            && bus < |db.reference.buses| && !db.reference.buses[bus].deleted
            && db.reference.buses[bus].status.InService? && Unoccupied(db, bus, start, end)
  {
    CountIsOverlap(db, bus, start, end);
  }

  /**
   A bus found available passes the check made when a trip is created for the same window; an active bus
   that passes that check is found available exactly when no delayed trip of it conflicts.
   */
  lemma AvailablePassesTripCheck(db: Db, bus: Id, start: int, end: int)
    ensures IsBusAvailable(db, bus, start, end) == Some(true) <==>
            && IsActive(db, bus) && BusAvailable(db.trips, bus, start, end, None)
            && forall i: nat | i < |db.trips| && db.trips[i].bus == Some(bus)
                              && db.trips[i].status.Delayed? && !db.trips[i].deleted ::
                 !Conflicts(db.trips[i], start, end)
  {
    CountPositive(db.trips, ConflictingTrip(bus, start, end));
  }

  /** So a trip created on an available bus, with a free driver and a later arrival, is never refused for its bus. */
  lemma AvailableBusAccepted(db: Db, route: Id, bus: Id, driver: Id, departure: int, arrival: int,
                             status: Option<TripStatus>)
    requires IsBusAvailable(db, bus, departure, arrival) == Some(true)
    ensures var reply := CreateTrip(db, route, bus, driver, departure, Some(arrival), status);
            reply.outcome == Done(|db.trips|) <==>
              && driver < db.reference.drivers && route < |db.reference.routes| && departure < arrival
              && DriverAvailable(db.trips, driver, departure, arrival, None)
  {
    AvailablePassesTripCheck(db, bus, departure, arrival);
  }
}
