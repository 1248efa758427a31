/** Trip creation, reassignment and status changes, and what the availability checks mean. */
module Scheduling {
  import opened Options
  import opened Tables
  import opened Collections
  import Clock

  /** The statuses the availability checks of the trip repository look at. */
  predicate Live(status: TripStatus) {
    status.Scheduled? || status.Boarding? || status.InProgress?
  }

  /** The three-way conflict condition of the availability queries; a missing time matches nothing. */
  predicate Conflicts(trip: Trip, start: int, end: int) {
    && trip.departure.Some? && trip.arrival.Some?
    && var dep, arr := trip.departure.value, trip.arrival.value;
       || (dep <= start && arr >= start)
       || (dep <= end && arr >= end)
       || (dep >= start && arr <= end)
  }

  ghost predicate During(moment: int, from: int, to: int) {
    from <= moment <= to
  }

  /** Two closed time intervals have a moment in common. */
  ghost predicate Overlap(dep: int, arr: int, start: int, end: int) {
    exists moment :: During(moment, dep, arr) && During(moment, start, end)
  }

  predicate Occupies(trip: Trip, start: int, end: int) {
    !trip.deleted && Live(trip.status) && Conflicts(trip, start, end)
  }

  predicate DriverAvailable(trips: seq<Trip>, driver: Id, start: int, end: int, exclude: Option<Id>) {
    forall i: nat | i < |trips| ::
      !(trips[i].driver == Some(driver) && Occupies(trips[i], start, end) && exclude != Some(i))
  }

  predicate BusAvailable(trips: seq<Trip>, bus: Id, start: int, end: int, exclude: Option<Id>) {
    forall i: nat | i < |trips| ::
      !(trips[i].bus == Some(bus) && Occupies(trips[i], start, end) && exclude != Some(i))
  }

  /** The non-deleted bus row, as `getBusById` finds it. */
  predicate BusExists(reference: Reference, bus: Id) {
    bus < |reference.buses| && !reference.buses[bus].deleted
  }

  /** Seats a bus offers: `capacity || 0`. */
  function SeatsOf(reference: Reference, bus: Id): int {
    if bus < |reference.buses| then reference.buses[bus].capacity.Or(0) else 0
  }

  /** Arrival computed from the route; a deleted route gives null and an unreadable duration an invalid date. */
  function ArrivalTime(route: Route, departure: int): Option<int> {
    if route.deleted then None
    else
      var minutes := Clock.EstimatedMinutes(route.estimatedTime, route.stationCount);
      if minutes.None? then None else Some(Clock.AddMinutes(departure, minutes.value))
  }

  function FindTrip(db: Db, trip: Id): Option<Trip> {
    if trip < |db.trips| && !db.trips[trip].deleted then Some(db.trips[trip]) else None
  }

  function CreateTrip(db: Db, route: Id, bus: Id, driver: Id, departure: int, arrival: Option<int>,
                      status: Option<TripStatus>): Reply {
    if !BusExists(db.reference, bus) then Reply(db, Rejected(BusNotFound))
    else if driver >= db.reference.drivers then Reply(db, Rejected(DriverNotFound))
    else if route >= |db.reference.routes| then Reply(db, Rejected(RouteNotFound))
    else
      var arr := if arrival.Some? then arrival else ArrivalTime(db.reference.routes[route], departure);
      if arr.None? then Reply(db, Rejected(InvalidTime))
      else if arr.value <= departure then Reply(db, Rejected(ArrivalNotAfterDeparture))
      else if !DriverAvailable(db.trips, driver, departure, arr.value, None) then Reply(db, Rejected(DriverBusy))
      else if !BusAvailable(db.trips, bus, departure, arr.value, None) then Reply(db, Rejected(BusBusy))
      else
        var row := Trip(route, Some(bus), Some(driver), Some(departure), arr, status.Or(Scheduled),
                        Some(SeatsOf(db.reference, bus)), false);
        Reply(db.(trips := db.trips + [row]), Done(|db.trips|))
  }

  /** Reassigning the driver and/or the bus of a trip. */
  function UpdateTrip(db: Db, trip: Id, driver: Option<Id>, bus: Option<Id>): Reply {
    var found := FindTrip(db, trip);
    if found.None? then Reply(db, Rejected(TripNotFound))
    else
      var t := found.value;
      var newDriver := driver.Some? && driver != t.driver;
      var newBus := bus.Some? && bus != t.bus;
      if (newDriver || newBus) && (t.departure.None? || t.arrival.None?) then Reply(db, Rejected(InvalidTime))
      else if newDriver && !DriverAvailable(db.trips, driver.value, t.departure.value, t.arrival.value, Some(trip)) then
        Reply(db, Rejected(DriverBusy))
      else if newBus && !BusAvailable(db.trips, bus.value, t.departure.value, t.arrival.value, Some(trip)) then
        Reply(db, Rejected(BusBusy))
      else if newDriver && driver.value >= db.reference.drivers then Reply(db, Rejected(DriverNotFound))
      else if newBus && bus.value >= |db.reference.buses| then Reply(db, Rejected(BusNotFound))
      else
        var row := t.(driver := if driver.Some? then driver else t.driver, bus := if bus.Some? then bus else t.bus);
        Reply(db.(trips := db.trips[trip := row]), Done(trip))
  }

  function ValidTransitions(from: TripStatus): set<TripStatus> {
    match from
    case Scheduled => {Boarding, Cancelled}
    case Boarding => {InProgress, Cancelled}
    case InProgress => {Delayed, Completed, Cancelled}
    case Delayed => {InProgress, Completed, Cancelled}
    case Completed => {}
    case Cancelled => {}
  }

  function UpdateTripStatus(db: Db, trip: Id, status: TripStatus): Reply {
    var found := FindTrip(db, trip);
    if found.None? then Reply(db, Rejected(TripNotFound))
    else if status !in ValidTransitions(found.value.status) then Reply(db, Rejected(IllegalTransition))
    else Reply(db.(trips := db.trips[trip := found.value.(status := status)]), Done(trip))
  }

  function ConfirmedOn(trip: Id): Booking -> bool {
    (b: Booking) => b.trip == trip && b.status.Confirmed?
  }

  /** The bulk update of `cancelTrip`: confirmed bookings of the trip become cancelled, no others change. */
  function CancelConfirmed(bookings: seq<Booking>, trip: Id): (r: seq<Booking>)
    ensures |r| == |bookings|
    ensures forall i: nat :: i < |r| ==> r[i] == if bookings[i].trip == trip && bookings[i].status.Confirmed?
                                                 then bookings[i].(status := Withdrawn) else bookings[i]
  {
    seq(|bookings|, i requires 0 <= i < |bookings| =>
      if bookings[i].trip == trip && bookings[i].status.Confirmed?
      then bookings[i].(status := Withdrawn) else bookings[i])
  }

  function CancelTrip(db: Db, trip: Id): Reply {
    var found := FindTrip(db, trip);
    if found.None? then Reply(db, Rejected(TripNotFound))
    else if found.value.status.Completed? || found.value.status.Cancelled? then Reply(db, Rejected(TripIsOver))
    else
      Reply(db.(bookings := CancelConfirmed(db.bookings, trip),
                trips := db.trips[trip := found.value.(status := Cancelled)]), Done(trip))
  }

  function DeleteTrip(db: Db, trip: Id): Reply {
    var found := FindTrip(db, trip);
    if found.None? then Reply(db, Rejected(TripNotFound))
    else if !found.value.status.Scheduled? && !found.value.status.Cancelled? then Reply(db, Rejected(TripNotDeletable))
    else Reply(db.(trips := db.trips[trip := found.value.(deleted := true)]), Done(trip))
  }

  // ----- what the conflict condition means

  /**
   On a trip that does not end before it starts, the three-way condition is closed-interval overlap
   exactly when the requested window is well formed or neither of its ends falls into the trip; a
   backwards window never overlaps anything, yet still conflicts through its ends.
   */
  lemma ConflictIsOverlap(trip: Trip, start: int, end: int)
    requires trip.departure.Some? && trip.arrival.Some? && trip.departure.value <= trip.arrival.value
    ensures var dep, arr := trip.departure.value, trip.arrival.value;
            (Conflicts(trip, start, end) <==> Overlap(dep, arr, start, end))
            <==> (start <= end || !(dep <= start <= arr || dep <= end <= arr))
  {
    var dep, arr := trip.departure.value, trip.arrival.value;
    if start <= end && Conflicts(trip, start, end) {
      var moment := if dep <= start then start else dep;
      assert During(moment, dep, arr) && During(moment, start, end);
    }
  }

  /**
   A trip created without an arrival time on a route whose duration was printed as HH:MM arrives that
   much later than it departs, plus two minutes for each station.
   */
  lemma PlannedArrival(db: Db, route: Id, bus: Id, driver: Id, departure: int,
                       status: Option<TripStatus>, duration: nat)
    requires route < |db.reference.routes| && !db.reference.routes[route].deleted
    requires db.reference.routes[route].estimatedTime == Some(Clock.FormatMinutes(duration))
    requires CreateTrip(db, route, bus, driver, departure, None, status).outcome.Done?
    ensures var after := CreateTrip(db, route, bus, driver, departure, None, status).db.trips;
            && |after| == |db.trips| + 1
            && after[|db.trips|].departure == Some(departure)
            && after[|db.trips|].arrival ==
               Some(departure + (duration + 2 * db.reference.routes[route].stationCount) * 60_000)
  {
    Clock.DurationRoundTrip(duration);
  }

  ghost predicate TimesInOrder(trips: seq<Trip>) {
    forall i: nat | i < |trips| && trips[i].departure.Some? && trips[i].arrival.Some? ::
      trips[i].departure.value <= trips[i].arrival.value
  }

  /** A trip on the timetable, other than the one excepted, that has a moment in common with the window. */
  ghost predicate Clashes(trips: seq<Trip>, i: Id, start: int, end: int, exclude: Option<Id>)
    requires i < |trips|
  {
    && exclude != Some(i) && !trips[i].deleted && trips[i].status in {Scheduled, Boarding, InProgress}
    && trips[i].departure.Some? && trips[i].arrival.Some?
    && Overlap(trips[i].departure.value, trips[i].arrival.value, start, end)
  }

  lemma AvailableMeansNoClash(trips: seq<Trip>, resource: Id, start: int, end: int, exclude: Option<Id>)
    requires TimesInOrder(trips) && start <= end
    ensures DriverAvailable(trips, resource, start, end, exclude) <==>
            forall i: nat | i < |trips| && trips[i].driver == Some(resource) :: !Clashes(trips, i, start, end, exclude)
    ensures BusAvailable(trips, resource, start, end, exclude) <==>
            forall i: nat | i < |trips| && trips[i].bus == Some(resource) :: !Clashes(trips, i, start, end, exclude)
  {
    forall i: nat | i < |trips|
      ensures Clashes(trips, i, start, end, exclude) <==> Occupies(trips[i], start, end) && exclude != Some(i)
    {
      if trips[i].departure.Some? && trips[i].arrival.Some? {
        ConflictIsOverlap(trips[i], start, end);
      }
    }
  }

  /**
   What the arrival time is computed as: nothing for a deleted route or a duration that cannot be read,
   otherwise the departure, the minutes of the duration and two minutes for each station.
   */
  lemma ArrivalMeans(route: Route, departure: int)
    ensures ArrivalTime(route, departure) ==
            if route.deleted || Clock.BaseMinutes(route.estimatedTime).None? then None
            else Some(departure + (Clock.BaseMinutes(route.estimatedTime).value + 2 * route.stationCount) * 60_000)
  {
  }

  /** A trip on the timetable with this driver or this bus that has a moment in common with the window. */
  ghost predicate Engaged(trips: seq<Trip>, driver: Option<Id>, bus: Option<Id>, start: int, end: int) {
    exists i: nat | i < |trips| ::
      && ((driver.Some? && trips[i].driver == driver) || (bus.Some? && trips[i].bus == bus))
      && Clashes(trips, i, start, end, None)
  }

  /**
   A trip is created exactly when bus, driver and route exist, its arrival is known and later than its
   departure, and no trip on the timetable with the same driver or bus has a moment in common with it.
   The new row has exactly the values asked for, scheduled unless another status is given, and the seats
   of its bus. A refused call changes nothing and names the first thing that is wrong.
   */
  lemma TripAccepted(db: Db, route: Id, bus: Id, driver: Id, departure: int,
                     arrival: Option<int>, status: Option<TripStatus>)
    requires TimesInOrder(db.trips)
    ensures var reply := CreateTrip(db, route, bus, driver, departure, arrival, status);
            var known := bus < |db.reference.buses| && !db.reference.buses[bus].deleted
                         && driver < db.reference.drivers && route < |db.reference.routes|;
            && (reply.outcome.Done? ==> known)
            && (!known ==>
                  reply.outcome == Rejected(if bus < |db.reference.buses| && !db.reference.buses[bus].deleted
                                            then if driver < db.reference.drivers then RouteNotFound else DriverNotFound
                                            else BusNotFound))
            && (known ==>
                  var arr := if arrival.Some? then arrival else ArrivalTime(db.reference.routes[route], departure);
                  && (reply.outcome == Rejected(InvalidTime) <==> arr.None?)
                  && (reply.outcome == Rejected(ArrivalNotAfterDeparture) <==> arr.Some? && arr.value <= departure)
                  && (arr.Some? && departure < arr.value ==>
                        && (reply.outcome == Rejected(DriverBusy) <==>
                              Engaged(db.trips, Some(driver), None, departure, arr.value))
                        && (reply.outcome.Done? <==> !Engaged(db.trips, Some(driver), Some(bus), departure, arr.value))
                        && (reply.outcome.Done? || reply.outcome.error in {DriverBusy, BusBusy}))
                  && (reply.outcome.Done? ==>
                        && reply.outcome.id == |db.trips|
                        && reply.db == db.(trips := db.trips + [
                             Trip(route, Some(bus), Some(driver), Some(departure), arr,
                                  if status.Some? then status.value else Scheduled,
                                  Some(if db.reference.buses[bus].capacity.Some?
                                       then db.reference.buses[bus].capacity.value else 0), false)])))
            && (reply.outcome.Rejected? ==> reply.db == db)
  {
    if route < |db.reference.routes| {
      var arr := if arrival.Some? then arrival else ArrivalTime(db.reference.routes[route], departure);
      if arr.Some? && departure < arr.value {
        AvailableMeansNoClash(db.trips, driver, departure, arr.value, None);
        AvailableMeansNoClash(db.trips, bus, departure, arr.value, None);
      }
    }
  }

  /**
   A trip with known times is reassigned exactly when it is there and each resource it does not have yet
   exists and has no other trip on the timetable at that time; nothing but its driver and bus changes.
   */
  lemma ReassignmentAccepted(db: Db, trip: Id, driver: Option<Id>, bus: Option<Id>)
    requires trip < |db.trips| ==> db.trips[trip].departure.Some? && db.trips[trip].arrival.Some?
    requires TimesInOrder(db.trips)
    ensures var reply := UpdateTrip(db, trip, driver, bus);
            && (reply.outcome == Rejected(TripNotFound) <==> trip >= |db.trips| || db.trips[trip].deleted)
            && (reply.outcome.Rejected? ==> reply.db == db)
            && (trip < |db.trips| && !db.trips[trip].deleted ==>
                  var t := db.trips[trip];
                  && (reply.outcome.Done? <==>
                        && (driver in {None, t.driver} ||
                            (driver.value < db.reference.drivers
                             && forall i: nat | i < |db.trips| && db.trips[i].driver == driver ::
                               !Clashes(db.trips, i, t.departure.value, t.arrival.value, Some(trip))))
                        && (bus in {None, t.bus} ||
                            (bus.value < |db.reference.buses|
                             && forall i: nat | i < |db.trips| && db.trips[i].bus == bus ::
                               !Clashes(db.trips, i, t.departure.value, t.arrival.value, Some(trip)))))
                  && (reply.outcome == Rejected(DriverBusy) <==>
                        driver !in {None, t.driver} && exists i: nat | i < |db.trips| && db.trips[i].driver == driver ::
                          Clashes(db.trips, i, t.departure.value, t.arrival.value, Some(trip)))
                  && (reply.outcome == Rejected(BusBusy) <==>
                        reply.outcome != Rejected(DriverBusy) && bus !in {None, t.bus}
                        && exists i: nat | i < |db.trips| && db.trips[i].bus == bus ::
                             Clashes(db.trips, i, t.departure.value, t.arrival.value, Some(trip)))
                  && (reply.outcome == Rejected(DriverNotFound) ==>
                        driver.Some? && driver.value >= db.reference.drivers)
                  && (reply.outcome == Rejected(BusNotFound) ==> bus.Some? && bus.value >= |db.reference.buses|)
                  && (reply.outcome.Rejected? ==>
                        reply.outcome.error in {DriverBusy, BusBusy, DriverNotFound, BusNotFound})
                  && (reply.outcome.Done? ==>
                        reply.db == db.(trips := db.trips[trip :=
                          t.(driver := if driver.None? then t.driver else driver,
                             bus := if bus.None? then t.bus else bus)])))
  {
    if FindTrip(db, trip).Some? {
      var start, end := db.trips[trip].departure.value, db.trips[trip].arrival.value;
      if driver.Some? { AvailableMeansNoClash(db.trips, driver.value, start, end, Some(trip)); }
      if bus.Some? { AvailableMeansNoClash(db.trips, bus.value, start, end, Some(trip)); }
    }
  }

  /**
   A status is changed exactly on a trip that is there and to one of the statuses that may follow its own.
   Nothing but this status changes, and a refused call changes nothing at all.
   */
  lemma StatusAccepted(db: Db, trip: Id, status: TripStatus)
    ensures var reply := UpdateTripStatus(db, trip, status);
            && (reply.outcome == Rejected(TripNotFound) <==> trip >= |db.trips| || db.trips[trip].deleted)
            && (reply.outcome.Done? <==>
                  && trip < |db.trips| && !db.trips[trip].deleted
                  && (db.trips[trip].status, status) in
                       {(Scheduled, Boarding), (Scheduled, Cancelled), (Boarding, InProgress), (Boarding, Cancelled),
                        (InProgress, Delayed), (InProgress, Completed), (InProgress, Cancelled),
                        (Delayed, InProgress), (Delayed, Completed), (Delayed, Cancelled)})
            && (reply.outcome.Done? ==> reply.db == db.(trips := db.trips[trip := db.trips[trip].(status := status)]))
            && (reply.outcome.Rejected? ==> reply.db == db && reply.outcome.error in {TripNotFound, IllegalTransition})
  {
  }

  /**
   A trip is deleted exactly when it is there and scheduled or cancelled; it is only flagged, nothing else
   changes.
   */
  lemma DeletionAccepted(db: Db, trip: Id)
    ensures var reply := DeleteTrip(db, trip);
            && (reply.outcome == Rejected(TripNotFound) <==> trip >= |db.trips| || db.trips[trip].deleted)
            && (reply.outcome.Done? <==>
                  trip < |db.trips| && !db.trips[trip].deleted && db.trips[trip].status in {Scheduled, Cancelled})
            && (reply.outcome.Done? ==> reply.db == db.(trips := db.trips[trip := db.trips[trip].(deleted := true)]))
            && (reply.outcome.Rejected? ==> reply.db == db && reply.outcome.error in {TripNotFound, TripNotDeletable})
  {
  }

  /**
   cancelTrip succeeds exactly for a trip that is there and not over. It ends the trip, withdraws exactly its
   confirmed bookings and leaves everything else as it was, its seat counter and payments included.
   */
  lemma TripCancellationAccepted(db: Db, trip: Id)
    ensures var reply := CancelTrip(db, trip);
            && (reply.outcome.Done? <==>
                  trip < |db.trips| && !db.trips[trip].deleted && db.trips[trip].status !in {Completed, Cancelled})
            && (reply.outcome == Rejected(TripNotFound) <==> trip >= |db.trips| || db.trips[trip].deleted)
            && (reply.outcome.Rejected? ==> reply.outcome.error in {TripNotFound, TripIsOver})
            && (reply.outcome.Rejected? ==> reply.db == db)
            && (reply.outcome.Done? ==>
                  && reply.db.trips == db.trips[trip := db.trips[trip].(status := Cancelled)]
                  && reply.db.payments == db.payments && |reply.db.bookings| == |db.bookings|
                  && reply.db.reference == db.reference
                  && (forall i: nat | i < |db.bookings| ::
                        reply.db.bookings[i] == if db.bookings[i].trip == trip && db.bookings[i].status.Confirmed?
                                                then db.bookings[i].(status := Withdrawn) else db.bookings[i])
                  && Count(reply.db.bookings, ConfirmedOn(trip)) == 0)
  {
    CountPositive(CancelConfirmed(db.bookings, trip), ConfirmedOn(trip));
  }
}
