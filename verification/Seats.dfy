/** Conservation of seats, and how the three seat counters relate. */
module Seats {
  import opened Options
  import opened Tables
  import opened Collections
  import opened Scheduling
  import opened Bookings
  import opened World

  /** What an accepted booking changes: one pending row more, one seat less on its trip, nothing else. */
  lemma BookingTakesSeat(db: Db, passenger: Id, trip: Id, seat: Option<string>, now: int)
    requires CreateBooking(db, passenger, trip, seat, now).outcome.Done?
    ensures var after := CreateBooking(db, passenger, trip, seat, now).db;
            && trip < |db.trips| == |after.trips|
            && after.reference == db.reference && after.payments == db.payments
            && |after.bookings| == |db.bookings| + 1
            && after.bookings == db.bookings + [after.bookings[|db.bookings|]]
            && (var b := after.bookings[|db.bookings|];
                b.trip == trip && b.passenger == passenger && b.seat == seat && b.status.Pending? && b.payment.None?)
            && (forall t: nat | t < |db.trips| && t != trip :: after.trips[t] == db.trips[t])
            && (db.trips[trip].availableSeats.None? ==> after.trips == db.trips)
            && (db.trips[trip].availableSeats.Some? ==>
                  && db.trips[trip].availableSeats.value > 0
                  && after.trips[trip] ==
                     db.trips[trip].(availableSeats := Some(db.trips[trip].availableSeats.value - 1)))
  {
  }

  /** Each trip keeps its times, and is delayed only if marked so. */
  ghost predicate TripKept(w: World, w': World, t: Id)
    requires t < |w.db.trips| <= |w'.db.trips| && t < |w.marks| && t < |w'.marks|
  {
    && w'.db.trips[t].departure == w.db.trips[t].departure && w'.db.trips[t].arrival == w.db.trips[t].arrival
    && (w'.db.trips[t].status.Delayed? && !w.db.trips[t].status.Delayed? ==> w'.marks[t].delayed)
    && (w.marks[t].delayed ==> w'.marks[t].delayed)
  }

  lemma TripRowsKept(w: World, step: Step)
    requires WellFormed(w)
    ensures var w' := Next(w, step);
            && |w'.marks| == |w'.db.trips| >= |w.db.trips|
            && forall t: nat | t < |w.db.trips| :: TripKept(w, w', t)
  {
    match step {
      case CreateTripStep(_, _, _, _, _, _) =>
      case UpdateTripStep(_, _, _) =>
      case UpdateTripStatusStep(_, _) =>
      case CancelTripStep(_) =>
      case DeleteTripStep(_) =>
      case CreateBookingStep(passenger, trip, seat, now) =>
        if Call(w.db, step).outcome.Done? { BookingTakesSeat(w.db, passenger, trip, seat, now); }
      case ProcessPaymentStep(_, _, _, _, _) =>
      case CancelBookingStep(_, _, _) =>
      case UpkeepStep(_) =>
    }
  }

  lemma BookingRowsKept(w: World, step: Step)
    requires WellFormed(w)
    ensures var bookings := Next(w, step).db.bookings;
            forall i: nat | i < |bookings| :: bookings[i].trip < |w.db.trips|
  {
    var bookings := Next(w, step).db.bookings;
    if step.CreateBookingStep? && Call(w.db, step).outcome.Done? {
      BookingTakesSeat(w.db, step.passenger, step.trip, step.seat, step.now);
    } else if step.CancelTripStep? {
      assert forall i: nat | i < |bookings| :: bookings[i].trip == w.db.bookings[i].trip;
    }
  }

  /** Every call keeps the tables well formed. */
  lemma {:induction false} WellFormedStep(w: World, step: Step)
    requires WellFormed(w)
    ensures WellFormed(Next(w, step))
    ensures |Next(w, step).db.trips| >= |w.db.trips|
  {
    TripRowsKept(w, step);
    BookingRowsKept(w, step);
    var w' := Next(w, step);
    forall t: nat | t < |w'.db.trips|
      ensures && w'.db.trips[t].departure.Some? && w'.db.trips[t].arrival.Some?
              && w'.db.trips[t].departure.value < w'.db.trips[t].arrival.value
              && (w'.db.trips[t].status.Delayed? ==> w'.marks[t].delayed)
    {
      if t < |w.db.trips| { assert TripKept(w, w', t); }
    }
  }

  /** `cancelTrip` takes exactly its confirmed bookings out of the active ones, and touches no other trip's. */
  lemma CancelConfirmedCounts(bookings: seq<Booking>, trip: Id, t: Id)
    ensures Count(bookings, ActiveOn(t)) ==
            Count(CancelConfirmed(bookings, trip), ActiveOn(t))
            + (if t == trip then Count(bookings, ConfirmedOn(trip)) else 0)
  {
    var after := CancelConfirmed(bookings, trip);
    if t == trip {
      CountSplit(bookings, after, bookings, ActiveOn(t), ActiveOn(t), ConfirmedOn(trip));
    } else {
      CountSame(bookings, after, ActiveOn(t), ActiveOn(t));
    }
  }

  /** No active booking can be found on a trip with none. */
  lemma NoneActive(bookings: seq<Booking>, t: Id, i: nat)
    requires i < |bookings| && ActiveOn(t)(bookings[i])
    ensures Count(bookings, ActiveOn(t)) > 0
  {
    CountPositive(bookings, ActiveOn(t));
  }

  lemma TakenSeatBalance(w: World, w': World, trip: Id, t: Id)
    requires SeatsKept(w) && t < |w.db.trips| && trip < |w.db.trips| == |w'.db.trips|
    requires w'.marks == w.marks
    requires |w'.db.bookings| == |w.db.bookings| + 1
    requires w'.db.bookings == w.db.bookings + [w'.db.bookings[|w.db.bookings|]]
    requires w'.db.bookings[|w.db.bookings|].trip == trip && w'.db.bookings[|w.db.bookings|].status.Pending?
    requires forall u: nat | u < |w.db.trips| && u != trip :: w'.db.trips[u] == w.db.trips[u]
    requires w.db.trips[trip].availableSeats.Some? && w.db.trips[trip].availableSeats.value > 0
    requires w'.db.trips[trip].availableSeats == Some(w.db.trips[trip].availableSeats.value - 1)
    ensures SeatsBalance(w', t)
  {
    assert SeatsBalance(w, t) && SeatsBalance(w, trip);
    CountAppend(w.db.bookings, w'.db.bookings[|w.db.bookings|], ActiveOn(t));
  }

  /** A booking only changes tables, not the record of what happened. */
  lemma NextCreateBooking(w: World, passenger: Id, trip: Id, seat: Option<string>, now: int)
    ensures var reply := CreateBooking(w.db, passenger, trip, seat, now);
            && Next(w, CreateBookingStep(passenger, trip, seat, now)) == w.(db := reply.db)
            && Call(w.db, CreateBookingStep(passenger, trip, seat, now)).outcome == reply.outcome
  {
  }

  lemma CreateBookingBalance(w: World, passenger: Id, trip: Id, seat: Option<string>, now: int, t: Id)
    requires WellFormed(w) && SeatsKept(w) && t < |w.db.trips|
    ensures var w' := Next(w, CreateBookingStep(passenger, trip, seat, now));
            t < |w'.db.trips| && |w'.marks| == |w'.db.trips| && SeatsBalance(w', t)
  {
    NextCreateBooking(w, passenger, trip, seat, now);
    var reply := CreateBooking(w.db, passenger, trip, seat, now);
    assert SeatsBalance(w, t);
    if reply.outcome.Done? {
      BookingTakesSeat(w.db, passenger, trip, seat, now);
      assert SeatsBalance(w, trip);
      TakenSeatBalance(w, w.(db := reply.db), trip, t);
    } else {
      assert reply.db == w.db;
    }
  }

  lemma ProcessPaymentBalance(w: World, step: Step, t: Id)
    requires step.ProcessPaymentStep?
    requires WellFormed(w) && SeatsKept(w) && t < |w.db.trips|
    ensures var w' := Next(w, step);
            t < |w'.db.trips| && |w'.marks| == |w'.db.trips| && SeatsBalance(w', t)
  {
    var reply := Call(w.db, step);
    assert SeatsBalance(w, t);
    if reply.db.bookings != w.db.bookings {
      var b := step.booking;
      CountUpdate(w.db.bookings, b, reply.db.bookings[b], ActiveOn(t));
      assert reply.db.bookings == w.db.bookings[b := reply.db.bookings[b]];
    }
  }

  lemma GivenSeatBalance(w: World, w': World, booking: Id, t: Id)
    requires SeatsKept(w) && t < |w.db.trips| == |w'.db.trips| && w'.marks == w.marks
    requires booking < |w.db.bookings| && Active(w.db.bookings[booking]) && w.db.bookings[booking].trip < |w.db.trips|
    requires w'.db.bookings == w.db.bookings[booking := w.db.bookings[booking].(status := Withdrawn)]
    requires var trip := w.db.bookings[booking].trip;
             && w.db.trips[trip].availableSeats.Some?
             && w'.db.trips[trip].availableSeats == Some(w.db.trips[trip].availableSeats.value + 1)
             && forall u: nat | u < |w.db.trips| && u != trip :: w'.db.trips[u] == w.db.trips[u]
    ensures SeatsBalance(w', t)
  {
    var trip := w.db.bookings[booking].trip;
    assert SeatsBalance(w, t) && SeatsBalance(w, trip);
    NoneActive(w.db.bookings, trip, booking);
    CountUpdate(w.db.bookings, booking, w'.db.bookings[booking], ActiveOn(t));
  }

  lemma CancelBookingBalance(w: World, booking: Id, user: Option<string>, now: int, t: Id)
    requires WellFormed(w) && SeatsKept(w) && t < |w.db.trips|
    ensures var w' := Next(w, CancelBookingStep(booking, user, now));
            t < |w'.db.trips| && |w'.marks| == |w'.db.trips| && SeatsBalance(w', t)
  {
    var reply := CancelBooking(w.db, booking, user, now);
    assert SeatsBalance(w, t);
    if reply.outcome.Done? {
      assert SeatsBalance(w, w.db.bookings[booking].trip);
      GivenSeatBalance(w, Next(w, CancelBookingStep(booking, user, now)), booking, t);
    }
  }

  lemma CancelTripBalance(w: World, trip: Id, t: Id)
    requires WellFormed(w) && SeatsKept(w) && t < |w.db.trips|
    ensures var w' := Next(w, CancelTripStep(trip));
            t < |w'.db.trips| && |w'.marks| == |w'.db.trips| && SeatsBalance(w', t)
  {
    assert SeatsBalance(w, t);
    CancelConfirmedCounts(w.db.bookings, trip, t);
  }

  lemma CreateTripBalance(w: World, step: Step, t: Id)
    requires step.CreateTripStep?
    requires WellFormed(w) && SeatsKept(w) && t < |Next(w, step).db.trips|
    ensures var w' := Next(w, step); |w'.marks| == |w'.db.trips| && SeatsBalance(w', t)
  {
    if t < |w.db.trips| {
      assert SeatsBalance(w, t);
    } else {
      CountPositive(w.db.bookings, ActiveOn(t));
    }
  }

  /** Every call keeps the seat balance of every trip. */
  lemma SeatsStep(w: World, step: Step)
    requires WellFormed(w) && SeatsKept(w)
    ensures SeatsKept(Next(w, step))
  {
    WellFormedStep(w, step);
    var w' := Next(w, step);
    forall t: nat | t < |w'.db.trips| ensures SeatsBalance(w', t) {
      match step {
        case CreateTripStep(_, _, _, _, _, _) => CreateTripBalance(w, step, t);
        case CancelTripStep(trip) => CancelTripBalance(w, trip, t);
        case CreateBookingStep(passenger, trip, seat, now) => CreateBookingBalance(w, passenger, trip, seat, now, t);
        case ProcessPaymentStep(_, _, _, _, _) => ProcessPaymentBalance(w, step, t);
        case CancelBookingStep(booking, user, now) => CancelBookingBalance(w, booking, user, now, t);
        case UpdateTripStep(_, _, _) => assert SeatsBalance(w, t);
        case UpdateTripStatusStep(_, _) => assert SeatsBalance(w, t);
        case DeleteTripStep(_) => assert SeatsBalance(w, t);
        case UpkeepStep(_) => assert SeatsBalance(w, t);
      }
    }
  }

  // ----- the three counters

  function SeatlessOn(trip: Id): Booking -> bool {
    (b: Booking) => b.trip == trip && Active(b) && b.seat.None?
  }

  /** The seats of the bus now on the trip. */
  function BusSeats(db: Db, trip: Trip): int {
    if trip.bus.Some? then SeatsOf(db.reference, trip.bus.value) else 0
  }

  /**
   The booking service's count exceeds the stored counter by the active bookings without a seat number
   exactly when the bus still offers the seats the trip was created with, less those `cancelTrip` took
   away; for a bus without seats, where it falls back on the stored counter, exactly when nothing is booked.
   Otherwise it is off by just that difference.
   */
  lemma SeatedCounterAgrees(w: World, t: Id)
    requires WellFormed(w) && SeatsKept(w) && FindTrip(w.db, t).Some?
    ensures w.db.trips[t].availableSeats.Some?
    ensures var capacity := BusSeats(w.db, w.db.trips[t]);
            var drift: int := if capacity != 0 then capacity - (w.marks[t].issued - w.marks[t].lost)
                              else 0 - Count(w.db.bookings, ActiveOn(t));
            SeatsLeft(w.db, t) == Some(w.db.trips[t].availableSeats.value + Count(w.db.bookings, SeatlessOn(t)) + drift)
    ensures var capacity := BusSeats(w.db, w.db.trips[t]);
            SeatsLeft(w.db, t) == Some(w.db.trips[t].availableSeats.value + Count(w.db.bookings, SeatlessOn(t))) <==>
            if capacity != 0 then capacity == w.marks[t].issued - w.marks[t].lost
            else Count(w.db.bookings, ActiveOn(t)) == 0
  {
    var bs := w.db.bookings;
    assert SeatsBalance(w, t);
    CountSplit(bs, bs, bs, ActiveOn(t), SeatedOn(t), SeatlessOn(t));
  }

  /**
   The trip repository's count exceeds the stored counter by the unpaid bookings exactly when the bus
   still offers the seats issued less those lost; if more bookings are confirmed than the bus has
   seats, its floor at 0 makes it agree exactly when no seat and no unpaid booking is left. Otherwise it is
   off by the difference in seats, down to 0.
   */
  lemma ConfirmedCounterAgrees(w: World, t: Id)
    requires WellFormed(w) && SeatsKept(w) && FindTrip(w.db, t).Some?
    ensures w.db.trips[t].availableSeats.Some?
    ensures var capacity := BusSeats(w.db, w.db.trips[t]);
            var expected := w.db.trips[t].availableSeats.value + Count(w.db.bookings, PendingOn(t));
            var shifted := expected + capacity - (w.marks[t].issued - w.marks[t].lost);
            UnconfirmedSeats(w.db, t) == Some(if shifted < 0 then 0 else shifted)
    ensures var capacity := BusSeats(w.db, w.db.trips[t]);
            var expected := w.db.trips[t].availableSeats.value + Count(w.db.bookings, PendingOn(t));
            UnconfirmedSeats(w.db, t) == Some(expected) <==>
            if capacity >= Count(w.db.bookings, ConfirmedOn(t)) then capacity == w.marks[t].issued - w.marks[t].lost
            else expected == 0
  {
    var bs := w.db.bookings;
    assert SeatsBalance(w, t);
    CountSplit(bs, bs, bs, ActiveOn(t), PendingOn(t), ConfirmedOn(t));
  }
}
