/**
 Runs of the booking and trip services. A world is the database plus a record of what happened to it
 that the tables do not keep: for each trip the seats it was created with, how many bookings `cancelTrip`
 took away and whether it was ever delayed; the payments whose ticket could not be issued; and the
 bookings that `cancelTrip` took away.
 */
module World {
  import opened Options
  import opened Tables
  import opened Collections
  import opened Scheduling
  import opened Bookings
  import Text

  datatype Mark = Mark(issued: int, lost: nat, delayed: bool)

  datatype World = World(db: Db, marks: seq<Mark>, faults: set<Id>, taken: set<Id>)

  datatype Step =
    | CreateTripStep(route: Id, bus: Id, driver: Id, departure: int, arrival: Option<int>, status: Option<TripStatus>)
    | UpdateTripStep(trip: Id, newDriver: Option<Id>, newBus: Option<Id>)
    | UpdateTripStatusStep(trip: Id, newStatus: TripStatus)
    | CancelTripStep(trip: Id)
    | DeleteTripStep(trip: Id)
    | CreateBookingStep(passenger: Id, trip: Id, seat: Option<string>, now: int)
    | ProcessPaymentStep(booking: Id, paymentMethod: Id, amount: real, gateway: Gateway, ticketIssued: bool)
    | CancelBookingStep(booking: Id, user: Option<string>, now: int)
    | UpkeepStep(reference: Reference)  // buses, drivers, routes and payment methods change in any way

  function Call(db: Db, step: Step): Reply {
    match step
    case CreateTripStep(route, bus, driver, departure, arrival, status) =>
      CreateTrip(db, route, bus, driver, departure, arrival, status)
    case UpdateTripStep(trip, driver, bus) => UpdateTrip(db, trip, driver, bus)
    case UpdateTripStatusStep(trip, status) => UpdateTripStatus(db, trip, status)
    case CancelTripStep(trip) => CancelTrip(db, trip)
    case DeleteTripStep(trip) => DeleteTrip(db, trip)
    case CreateBookingStep(passenger, trip, seat, now) => CreateBooking(db, passenger, trip, seat, now)
    case ProcessPaymentStep(booking, paymentMethod, amount, gateway, ticketIssued) =>
      ProcessPayment(db, booking, paymentMethod, amount, gateway, ticketIssued)
    case CancelBookingStep(booking, user, now) => CancelBooking(db, booking, user, now)
    case UpkeepStep(reference) => Reply(db.(reference := reference), Done(0))
  }

  function NextMarks(w: World, step: Step, outcome: Outcome): seq<Mark> {
    match step
    case CreateTripStep(_, bus, _, _, _, status) =>
      if outcome.Done? then w.marks + [Mark(SeatsOf(w.db.reference, bus), 0, status == Some(Delayed))] else w.marks
    case UpdateTripStatusStep(trip, status) =>
      if outcome.Done? && status.Delayed? && trip < |w.marks| then w.marks[trip := w.marks[trip].(delayed := true)]
      else w.marks
    case CancelTripStep(trip) =>
      if outcome.Done? && trip < |w.marks| then
        w.marks[trip := w.marks[trip].(lost := w.marks[trip].lost + Count(w.db.bookings, ConfirmedOn(trip)))]
      else w.marks
    case _ => w.marks
  }

  function ConfirmedIds(bookings: seq<Booking>, trip: Id): set<Id> {
    set i: nat | i < |bookings| && bookings[i].trip == trip && bookings[i].status.Confirmed?
  }

  function Next(w: World, step: Step): World {
    var reply := Call(w.db, step);
    World(reply.db, NextMarks(w, step, reply.outcome),
          w.faults + (if reply.outcome == Rejected(TicketFailure) then {|w.db.payments|} else {}),
          w.taken + (if step.CancelTripStep? && reply.outcome.Done?
                     then ConfirmedIds(w.db.bookings, step.trip) else {}))
  }

  function Run(w: World, steps: seq<Step>): World {
    if steps == [] then w else Next(Run(w, steps[..|steps| - 1]), steps[|steps| - 1])
  }

  /** A database in which no trip, booking or payment has been made yet. */
  function Opening(reference: Reference): World {
    World(Db(reference, [], [], []), [], {}, {})
  }

  // ----- the invariants

  ghost predicate WellFormed(w: World) {
    && |w.marks| == |w.db.trips|
    && (forall i: nat | i < |w.db.bookings| :: w.db.bookings[i].trip < |w.db.trips|)
    && (forall t: nat | t < |w.db.trips| ::
          && w.db.trips[t].departure.Some? && w.db.trips[t].arrival.Some?
          && w.db.trips[t].departure.value < w.db.trips[t].arrival.value
          && (w.db.trips[t].status.Delayed? ==> w.marks[t].delayed))
  }

  /** The stored counter, the active bookings and the bookings lost to `cancelTrip` make up the seats issued. */
  ghost predicate SeatsBalance(w: World, t: Id)
    requires t < |w.db.trips| && |w.marks| == |w.db.trips|
  {
    && w.db.trips[t].availableSeats.Some?
    && w.db.trips[t].availableSeats.value + Count(w.db.bookings, ActiveOn(t)) + w.marks[t].lost == w.marks[t].issued
    && (w.marks[t].issued >= 0 ==> w.db.trips[t].availableSeats.value >= 0)
    && (w.marks[t].issued < 0 ==> Count(w.db.bookings, ActiveOn(t)) == 0 && w.marks[t].lost == 0)
  }

  ghost predicate SeatsKept(w: World) {
    |w.marks| == |w.db.trips| && forall t: nat | t < |w.db.trips| :: SeatsBalance(w, t)
  }

  /** Two bookings that must not both be active. */
  predicate Contend(a: Booking, b: Booking) {
    a.trip == b.trip && (a.passenger == b.passenger || (a.seat == b.seat && a.seat.Or("") != ""))
  }

  ghost predicate NoDoubleBooking(bookings: seq<Booking>) {
    forall i: nat, j: nat | i < j < |bookings| && Active(bookings[i]) && Active(bookings[j]) ::
      !Contend(bookings[i], bookings[j])
  }

  /** Ends in the padded number of the row, after a dash. */
  ghost predicate TicketOf(ticket: string, booking: Id) {
    exists stamp: string {:trigger stamp + "-"} :: ticket == stamp + "-" + Text.PadStart(Text.Decimal(booking + 1), 4)
  }

  ghost predicate TicketsNumbered(bookings: seq<Booking>) {
    forall i: nat | i < |bookings| :: TicketOf(bookings[i].ticket, i)
  }

  predicate SameDriver(a: Trip, b: Trip) {
    a.driver.Some? && a.driver == b.driver
  }

  predicate SameBus(a: Trip, b: Trip) {
    a.bus.Some? && a.bus == b.bus
  }

  /** On the timetable: not deleted and scheduled, boarding or in progress. */
  predicate Serving(db: Db, t: Id)
    requires t < |db.trips|
  {
    !db.trips[t].deleted && db.trips[t].status in {Scheduled, Boarding, InProgress}
  }

  /** On the timetable and never delayed. */
  predicate OnTime(w: World, t: Id)
    requires t < |w.db.trips| && |w.marks| == |w.db.trips|
  {
    Serving(w.db, t) && !w.marks[t].delayed
  }

  ghost predicate Apart(a: Trip, b: Trip) {
    a.departure.Some? && a.arrival.Some? && b.departure.Some? && b.arrival.Some?
    && !Overlap(a.departure.value, a.arrival.value, b.departure.value, b.arrival.value)
  }

  /** If the two trips share a driver or a bus, they run at different times. */
  ghost predicate Separate(a: Trip, b: Trip) {
    SameDriver(a, b) || SameBus(a, b) ==> Apart(a, b)
  }

  ghost predicate Exclusive(w: World) {
    && |w.marks| == |w.db.trips|
    && forall i: nat, j: nat | i < j < |w.db.trips| && OnTime(w, i) && OnTime(w, j) ::
         Separate(w.db.trips[i], w.db.trips[j])
  }

  /** The same for all trips on the timetable, delayed before or not. */
  ghost predicate FullyExclusive(db: Db) {
    forall i: nat, j: nat | i < j < |db.trips| && Serving(db, i) && Serving(db, j) ::
      Separate(db.trips[i], db.trips[j])
  }
}
