/** What holds after every run of booking, payment, cancellation and trip calls. */
module Runs {
  import opened Options
  import opened Tables
  import opened Collections
  import opened Scheduling
  import opened Bookings
  import opened World
  import Seats
  import Claims
  import Exclusivity
  import Ledger

  ghost predicate Invariant(w: World) {
    && WellFormed(w) && SeatsKept(w) && Exclusive(w)
    && NoDoubleBooking(w.db.bookings) && TicketsNumbered(w.db.bookings)
    && Ledger.Settled(w) && Ledger.Balanced(w.db)
  }

  lemma InvariantStep(w: World, step: Step)
    requires Invariant(w)
    ensures Invariant(Next(w, step))
  {
    Seats.WellFormedStep(w, step);
    Seats.SeatsStep(w, step);
    Exclusivity.ExclusiveStep(w, step);
    Claims.ClaimsStep(w, step);
    Ledger.SettledStep(w, step);
    Ledger.BalancedStep(w, step);
  }

  /** Every run from a state that satisfies the invariant, and so every run from an empty database, keeps it. */
  lemma {:induction false} InvariantRun(w: World, steps: seq<Step>)
    requires Invariant(w)
    ensures Invariant(Run(w, steps))
  {
    if steps != [] {
      InvariantRun(w, steps[..|steps| - 1]);
      InvariantStep(Run(w, steps[..|steps| - 1]), steps[|steps| - 1]);
    }
  }

  lemma Reachable(reference: Reference, steps: seq<Step>)
    ensures Invariant(Run(Opening(reference), steps))
  {
    InvariantRun(Opening(reference), steps);
  }

  // ----- seats

  /** A trip keeps for ever the seat number it was created with, and only `cancelTrip` on it loses bookings. */
  lemma {:induction false} IssuedFixed(w: World, steps: seq<Step>, t: Id)
    requires WellFormed(w) && t < |w.marks|
    ensures var w' := Run(w, steps);
            && WellFormed(w') && t < |w'.marks| && w'.marks[t].issued == w.marks[t].issued
            && ((forall i :: 0 <= i < |steps| ==> steps[i] != CancelTripStep(t)) ==>
                  w'.marks[t].lost == w.marks[t].lost)
  {
    if steps != [] {
      var front, last := steps[..|steps| - 1], steps[|steps| - 1];
      IssuedFixed(w, front, t);
      Seats.WellFormedStep(Run(w, front), last);
      assert (forall i :: 0 <= i < |steps| ==> steps[i] != CancelTripStep(t)) ==>
          last != CancelTripStep(t) && forall i :: 0 <= i < |front| ==> front[i] != CancelTripStep(t);
    }
  }

  /**
   A trip created with the seats of its bus conserves them in every later run, whatever happens to the
   bus: counter, active bookings and bookings lost to `cancelTrip` add up, with nothing lost as long as
   `cancelTrip` was not applied to it. The counter is never negative and the trip never overbooked
   exactly when the seat number was not negative.
   */
  lemma {:induction false} SeatConservation(w: World, create: Step, steps: seq<Step>)
    requires Invariant(w) && create.CreateTripStep? && Call(w.db, create).outcome.Done?
    ensures var t := |w.db.trips|;
            var w' := Run(Next(w, create), steps);
            var seats := SeatsOf(w.db.reference, create.bus);
            && t < |w'.db.trips| == |w'.marks| && w'.db.trips[t].availableSeats.Some?
            && (var left := w'.db.trips[t].availableSeats.value;
                var active := Count(w'.db.bookings, ActiveOn(t));
                && left + active + w'.marks[t].lost == seats
                && ((forall i :: 0 <= i < |steps| ==> steps[i] != CancelTripStep(t)) ==> left + active == seats)
                && (0 <= left && active <= seats <==> 0 <= seats))
  {
    var t := |w.db.trips|;
    InvariantStep(w, create);
    InvariantRun(Next(w, create), steps);
    IssuedFixed(Next(w, create), steps, t);
    var w' := Run(Next(w, create), steps);
    assert SeatsBalance(w', t);
  }

  /** The call does not cancel the trip, gives it no other bus and leaves its bus the seats it has. */
  predicate KeepsSeats(step: Step, t: Id, bus: Id, seats: int) {
    match step
    case CancelTripStep(trip) => trip != t
    case UpdateTripStep(trip, _, newBus) => trip == t ==> newBus.Or(bus) == bus
    case UpkeepStep(reference) => SeatsOf(reference, bus) == seats
    case _ => true
  }

  /** The trip still has its bus, and the bus its seats. */
  predicate OnBus(db: Db, t: Id, bus: Id, seats: int) {
    t < |db.trips| && db.trips[t].bus == Some(bus) && SeatsOf(db.reference, bus) == seats
  }

  lemma OnBusStep(db: Db, step: Step, t: Id, bus: Id, seats: int)
    requires OnBus(db, t, bus, seats) && KeepsSeats(step, t, bus, seats)
    ensures OnBus(Call(db, step).db, t, bus, seats)
  {
    match step {
      case CreateTripStep(_, _, _, _, _, _) =>
      case UpdateTripStep(_, _, _) =>
      case UpdateTripStatusStep(_, _) =>
      case CancelTripStep(_) =>
      case DeleteTripStep(_) =>
      case CreateBookingStep(passenger, trip, seat, now) =>
        if Call(db, step).outcome.Done? { Seats.BookingTakesSeat(db, passenger, trip, seat, now); }
      case ProcessPaymentStep(_, _, _, _, _) =>
      case CancelBookingStep(_, _, _) =>
      case UpkeepStep(_) =>
    }
  }

  lemma {:induction false} OnBusRun(w: World, steps: seq<Step>, t: Id, bus: Id, seats: int)
    requires OnBus(w.db, t, bus, seats) && forall i :: 0 <= i < |steps| ==> KeepsSeats(steps[i], t, bus, seats)
    ensures OnBus(Run(w, steps).db, t, bus, seats)
  {
    if steps != [] {
      var front, last := steps[..|steps| - 1], steps[|steps| - 1];
      OnBusRun(w, front, t, bus, seats);
      OnBusStep(Run(w, front).db, last, t, bus, seats);
    }
  }

  /**
   Both ways of counting free seats fit the stored counter: the booking service's exceeds it by the active
   bookings without a seat number and, unless the bus has a negative number of seats, the trip
   repository's exceeds it by the unpaid bookings.
   */
  predicate CountersFit(db: Db, t: Id, seats: int) {
    && t < |db.trips| && db.trips[t].availableSeats.Some?
    && (!db.trips[t].deleted ==>
          var left := db.trips[t].availableSeats.value;
          && SeatsLeft(db, t) == Some(left + Count(db.bookings, Seats.SeatlessOn(t)))
          && (UnconfirmedSeats(db, t) == Some(left + Count(db.bookings, PendingOn(t))) <==> 0 <= seats))
  }

  lemma NothingLostFits(w: World, t: Id)
    requires Invariant(w) && t < |w.db.trips| && w.marks[t].lost == 0
    requires Seats.BusSeats(w.db, w.db.trips[t]) == w.marks[t].issued
    ensures CountersFit(w.db, t, w.marks[t].issued)
  {
    var bs := w.db.bookings;
    assert SeatsBalance(w, t);
    if FindTrip(w.db, t).Some? {
      Seats.SeatedCounterAgrees(w, t);
      Seats.ConfirmedCounterAgrees(w, t);
      CountSplit(bs, bs, bs, ActiveOn(t), PendingOn(t), ConfirmedOn(t));
    }
  }

  /** The trip's bus has the seats the trip was issued, and none were lost. */
  ghost predicate Unimpaired(w: World, t: Id, bus: Id, seats: int) {
    OnBus(w.db, t, bus, seats) && t < |w.marks| && w.marks[t].issued == seats && w.marks[t].lost == 0
  }

  lemma CreatedUnimpaired(w: World, create: Step)
    requires WellFormed(w) && create.CreateTripStep? && Call(w.db, create).outcome.Done?
    ensures Unimpaired(Next(w, create), |w.db.trips|, create.bus, SeatsOf(w.db.reference, create.bus))
  {
  }

  lemma {:induction false} UnimpairedRun(w: World, steps: seq<Step>, t: Id, bus: Id, seats: int)
    requires WellFormed(w) && Unimpaired(w, t, bus, seats)
    requires forall i :: 0 <= i < |steps| ==> KeepsSeats(steps[i], t, bus, seats)
    ensures Unimpaired(Run(w, steps), t, bus, seats)
  {
    IssuedFixed(w, steps, t);
    OnBusRun(w, steps, t, bus, seats);
    assert forall i :: 0 <= i < |steps| ==> KeepsSeats(steps[i], t, bus, seats) && steps[i] != CancelTripStep(t);
  }

  /**
   For a trip made by `createTrip`, both ways of counting free seats fit the stored counter after every
   run that does not cancel the trip, gives it no other bus and leaves its bus as many seats.
   */
  lemma {:induction false} CountersAgree(w: World, create: Step, steps: seq<Step>)
    requires Invariant(w) && create.CreateTripStep? && Call(w.db, create).outcome.Done?
    requires forall i :: 0 <= i < |steps| ==>
               KeepsSeats(steps[i], |w.db.trips|, create.bus, SeatsOf(w.db.reference, create.bus))
    ensures CountersFit(Run(Next(w, create), steps).db, |w.db.trips|, SeatsOf(w.db.reference, create.bus))
  {
    InvariantStep(w, create);
    CreatedUnimpaired(w, create);
    StaysFit(Next(w, create), steps, |w.db.trips|, create.bus, SeatsOf(w.db.reference, create.bus));
  }

  lemma StaysFit(w: World, steps: seq<Step>, t: Id, bus: Id, seats: int)
    requires Invariant(w) && Unimpaired(w, t, bus, seats)
    requires forall i :: 0 <= i < |steps| ==> KeepsSeats(steps[i], t, bus, seats)
    ensures CountersFit(Run(w, steps).db, t, seats)
  {
    InvariantRun(w, steps);
    UnimpairedRun(w, steps, t, bus, seats);
    NothingLostFits(Run(w, steps), t);
  }

  /**
   The capacity check is safe but counts confirmed bookings twice: with everything else in order, a
   booking is refused exactly when unpaid bookings plus twice the confirmed ones reach the seats not
   lost. Seats are then still free exactly when the counter is positive and no more than the confirmed
   bookings.
   */
  lemma CapacityCheckIsConservative(w: World, passenger: Id, t: Id, seat: Option<string>, now: int)
    requires Invariant(w)
    requires TripRefusal(w.db, t, now).None? && Claims.Unclaimed(w.db.bookings, t, passenger, seat)
    ensures t < |w.marks|
    ensures CreateBooking(w.db, passenger, t, seat, now).outcome == Rejected(TripFull) <==>
            Count(w.db.bookings, PendingOn(t)) + 2 * Count(w.db.bookings, ConfirmedOn(t))
            >= w.marks[t].issued - w.marks[t].lost
    ensures var trip := w.db.trips[t];
            && trip.availableSeats.Some?
            && (CreateBooking(w.db, passenger, t, seat, now).outcome == Rejected(TripFull)
                && trip.availableSeats.value > 0 <==>
                  0 < trip.availableSeats.value <= Count(w.db.bookings, ConfirmedOn(t)))
  {
    var bs := w.db.bookings;
    Claims.UnclaimedByCounts(bs, t, passenger, seat);
    assert SeatsBalance(w, t);
    CountSplit(bs, bs, bs, ActiveOn(t), PendingOn(t), ConfirmedOn(t));
  }

  /** Cancelling a pending booking that was not paid for. */
  lemma CancelPending(db: Db, b: Id, now: int)
    requires b < |db.bookings| && db.bookings[b].status.Pending? && db.bookings[b].payment.None?
    requires db.bookings[b].trip < |db.trips|
    ensures var reply := CancelBooking(db, b, None, now);
            var trip := db.trips[db.bookings[b].trip];
            && reply.outcome == Done(b) && reply.db.payments == db.payments
            && reply.db.bookings == db.bookings[b := db.bookings[b].(status := Withdrawn)]
            && reply.db.trips == if trip.availableSeats.None? then db.trips
                                 else db.trips[db.bookings[b].trip :=
                                    trip.(availableSeats := Some(trip.availableSeats.value + 1))]
  {
  }

  /** The same for the last booking, made with one seat taken off its trip. */
  lemma CancelLast(db: Db, booked: Db, trip: Id, now: int)
    requires trip < |db.trips| == |booked.trips| && booked.payments == db.payments
    requires |booked.bookings| == |db.bookings| + 1
    requires booked.bookings == db.bookings + [booked.bookings[|db.bookings|]]
    requires var b := booked.bookings[|db.bookings|]; b.trip == trip && b.status.Pending? && b.payment.None?
    requires forall t: nat | t < |db.trips| && t != trip :: booked.trips[t] == db.trips[t]
    requires booked.trips[trip] == match db.trips[trip].availableSeats
                                   case None => db.trips[trip]
                                   case Some(seats) => db.trips[trip].(availableSeats := Some(seats - 1))
    ensures var reply := CancelBooking(booked, |db.bookings|, None, now);
            && reply.outcome == Done(|db.bookings|) && reply.db.trips == db.trips && reply.db.payments == db.payments
            && reply.db.bookings == db.bookings + [booked.bookings[|db.bookings|].(status := Withdrawn)]
  {
    CancelPending(booked, |db.bookings|, now);
  }

  /** Withdrawing a booking at once gives its seat back: the trips are as before, and one withdrawn row remains. */
  lemma CancelUndoesBooking(db: Db, passenger: Id, trip: Id, seat: Option<string>, now: int, later: int)
    requires CreateBooking(db, passenger, trip, seat, now).outcome.Done?
    ensures var booked := CreateBooking(db, passenger, trip, seat, now);
            var b := booked.outcome.id;
            var cancelled := CancelBooking(booked.db, b, None, later);
            && b == |db.bookings| && cancelled.outcome == Done(b)
            && cancelled.db.trips == db.trips && cancelled.db.payments == db.payments
            && |cancelled.db.bookings| == |db.bookings| + 1
            && cancelled.db.bookings[..b] == db.bookings && cancelled.db.bookings[b].status.Withdrawn?
  {
    Seats.BookingTakesSeat(db, passenger, trip, seat, now);
    CancelLast(db, CreateBooking(db, passenger, trip, seat, now).db, trip, later);
  }

  // ----- claims

  /** In every run a seat (unless its number is empty) and a passenger have at most one active booking on a trip. */
  lemma {:induction false} NoDoubleBookingEver(w: World, steps: seq<Step>, i: Id, j: Id)
    requires Invariant(w)
    requires var bs := Run(w, steps).db.bookings; i < |bs| && j < |bs| && i != j
    ensures var bs := Run(w, steps).db.bookings;
            Active(bs[i]) && Active(bs[j]) && bs[i].trip == bs[j].trip ==>
              bs[i].passenger != bs[j].passenger && (bs[i].seat == bs[j].seat ==> bs[i].seat.Or("") == "")
  {
    InvariantRun(w, steps);
    var bs := Run(w, steps).db.bookings;
    assert !Active(bs[i]) || !Active(bs[j]) || !Contend(if i < j then bs[i] else bs[j], if i < j then bs[j] else bs[i]);
  }

  /** In every run, whatever the clock does, a ticket number leads back to the one booking it was printed for. */
  lemma {:induction false} TicketsIdentifyBookings(w: World, steps: seq<Step>, i: Id)
    requires Invariant(w)
    requires i < |Run(w, steps).db.bookings|
    ensures var bs := Run(w, steps).db.bookings;
            && FindTicket(bs, bs[i].ticket) == Some(i)
            && forall j: nat :: j < |bs| && j != i ==> bs[j].ticket != bs[i].ticket
  {
    InvariantRun(w, steps);
    var db := Run(w, steps).db;
    Claims.TicketsUnique(db, db.bookings[i].ticket, 0);
  }

  // ----- drivers and buses

  /**
   In every run, two different trips that are on the timetable (scheduled, boarding or in progress),
   not deleted and never delayed, and that share a driver or a bus, have no moment in common.
   */
  lemma {:induction false} ExclusiveUse(w: World, steps: seq<Step>, i: Id, j: Id, moment: int)
    requires Invariant(w)
    requires var trips := Run(w, steps).db.trips; i < |trips| && j < |trips| && i != j
    ensures var w' := Run(w, steps);
            && |w'.marks| == |w'.db.trips|
            && var a, b := w'.db.trips[i], w'.db.trips[j];
            && a.departure.Some? && a.arrival.Some? && b.departure.Some? && b.arrival.Some?
            && (OnTime(w', i) && OnTime(w', j) && (SameDriver(a, b) || SameBus(a, b)) ==>
                  !(a.departure.value <= moment <= a.arrival.value && b.departure.value <= moment <= b.arrival.value))
  {
    InvariantRun(w, steps);
    var w' := Run(w, steps);
    assert Exclusive(w');
    Exclusivity.SeparateSymmetric(w'.db.trips[i], w'.db.trips[j]);
    var a, b := w'.db.trips[i], w'.db.trips[j];
    assert During(moment, a.departure.value, a.arrival.value) <==> a.departure.value <= moment <= a.arrival.value;
    assert During(moment, b.departure.value, b.arrival.value) <==> b.departure.value <= moment <= b.arrival.value;
  }

  // A run in which the driver's first trip is delayed while a second one is planned, and then goes on.
  const TWO_BUSES :=
    Reference([Bus(Some(40), InService, false), Bus(Some(40), InService, false)], 1, [Route(None, 0, false)], [])
  const FIRST := CreateTripStep(0, 0, 0, 0, Some(100), None)
  const SECOND := CreateTripStep(0, 1, 0, 50, Some(150), None)

  function To(status: TripStatus): Step { UpdateTripStatusStep(0, status) }

  function FirstTrip(status: TripStatus): Trip {
    Trip(0, Some(0), Some(0), Some(0), Some(100), status, Some(40), false)
  }

  const SECOND_TRIP := Trip(0, Some(1), Some(0), Some(50), Some(150), Scheduled, Some(40), false)

  function Timetable(status: TripStatus, others: seq<Trip>): Db {
    Db(TWO_BUSES, [FirstTrip(status)] + others, [], [])
  }

  lemma CallTo(from: TripStatus, status: TripStatus, others: seq<Trip>)
    requires status in ValidTransitions(from)
    ensures Call(Timetable(from, others), To(status)).db == Timetable(status, others)
  {
    assert Timetable(from, others).trips[0 := FirstTrip(status)] == Timetable(status, others).trips;
  }

  lemma CallSecond()
    ensures Call(Timetable(Delayed, []), SECOND).db == Timetable(Delayed, [SECOND_TRIP])
  {
    assert DriverAvailable(Timetable(Delayed, []).trips, 0, 50, 150, None);
    assert BusAvailable(Timetable(Delayed, []).trips, 1, 50, 150, None);
  }

  lemma RunAppend(w: World, steps: seq<Step>, step: Step)
    ensures Run(w, steps + [step]).db == Call(Run(w, steps).db, step).db
  {
    assert (steps + [step])[..|steps|] == steps;
  }

  /** Delayed trips are not seen by the checks, so a delay lets one driver end up with two overlapping live trips. */
  lemma DelayDoubleBooksDriver()
    ensures var trips := Run(Opening(TWO_BUSES), [FIRST] + [To(Boarding)] + [To(InProgress)] + [To(Delayed)]
                                 + [SECOND] + [To(InProgress)]).db.trips;
            && |trips| == 2 && SameDriver(trips[0], trips[1])
            && !trips[0].deleted && Live(trips[0].status) && !trips[1].deleted && Live(trips[1].status)
            && !Apart(trips[0], trips[1])
  {
    var w := Opening(TWO_BUSES);
    RunAppend(w, [], FIRST);
    assert [] + [FIRST] == [FIRST];
    assert Call(w.db, FIRST).db == Timetable(Scheduled, []);
    var s2 := [FIRST] + [To(Boarding)];
    RunAppend(w, [FIRST], To(Boarding));
    CallTo(Scheduled, Boarding, []);
    RunAppend(w, s2, To(InProgress));
    CallTo(Boarding, InProgress, []);
    var s3 := s2 + [To(InProgress)];
    RunAppend(w, s3, To(Delayed));
    CallTo(InProgress, Delayed, []);
    var s4 := s3 + [To(Delayed)];
    RunAppend(w, s4, SECOND);
    CallSecond();
    RunAppend(w, s4 + [SECOND], To(InProgress));
    CallTo(Delayed, InProgress, [SECOND_TRIP]);
    assert During(60, 0, 100) && During(60, 50, 150);
  }

  /** How far a trip has come. */
  function Stage(status: TripStatus): nat {
    match status
    case Scheduled => 0
    case Boarding => 1
    case InProgress => 2
    case Delayed => 2
    case Completed => 3
    case Cancelled => 4
  }

  predicate IsOver(status: TripStatus) {
    status.Completed? || status.Cancelled?
  }

  /**
   What one call can do to a trip: move on by one stage, switch between running and delayed, or end in
   cancellation.
   */
  ghost predicate Moves(a: Trip, b: Trip) {
    && (b.status == a.status
        || (!IsOver(a.status) && !a.deleted && (b.status.Cancelled? || Stage(b.status) == Stage(a.status) + 1
                                               || (a.status.InProgress? && b.status.Delayed?)
                                               || (a.status.Delayed? && b.status.InProgress?))))
    && (a.deleted ==> b.deleted)
    && (b.deleted && !a.deleted ==> a.status == b.status && (a.status.Scheduled? || a.status.Cancelled?))
  }

  lemma TripMoves(w: World, step: Step, t: Id)
    requires WellFormed(w) && t < |w.db.trips|
    ensures t < |Next(w, step).db.trips| && Moves(w.db.trips[t], Next(w, step).db.trips[t])
  {
    match step {
      case CreateTripStep(_, _, _, _, _, _) =>
      case UpdateTripStep(_, _, _) =>
      case UpdateTripStatusStep(_, _) =>
      case CancelTripStep(_) =>
      case DeleteTripStep(_) =>
      case CreateBookingStep(passenger, trip, seat, now) =>
        if Call(w.db, step).outcome.Done? { Seats.BookingTakesSeat(w.db, passenger, trip, seat, now); }
      case ProcessPaymentStep(_, _, _, _, _) =>
      case CancelBookingStep(_, _, _) =>
      case UpkeepStep(_) =>
    }
  }

  /**
   In every run trips only move forward: a completed or cancelled trip keeps its status for ever, no trip
   goes back a stage, and a trip deleted on the way was scheduled or cancelled and stays as it was.
   */
  lemma {:induction false} TripsMoveForward(w: World, steps: seq<Step>, t: Id)
    requires WellFormed(w) && t < |w.db.trips|
    ensures var w' := Run(w, steps);
            && WellFormed(w') && t < |w'.db.trips|
            && var a, b := w.db.trips[t], w'.db.trips[t];
               && Stage(a.status) <= Stage(b.status)
               && (IsOver(a.status) || a.deleted ==> b.status == a.status)
               && (a.deleted ==> b.deleted)
               && (b.deleted && !a.deleted ==> b.status.Scheduled? || b.status.Cancelled?)
  {
    if steps != [] {
      var front, last := steps[..|steps| - 1], steps[|steps| - 1];
      TripsMoveForward(w, front, t);
      Seats.WellFormedStep(Run(w, front), last);
      TripMoves(Run(w, front), last, t);
    }
  }
}
