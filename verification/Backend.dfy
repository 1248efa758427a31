/**
 The services as they run: one object holding the tables, each call changing them row by row. Every
 method is tied to the step of the world it performs, so what is proved of runs holds of this object.
 */
module Backend {
  import opened Options
  import opened Tables
  import opened Collections
  import opened Scheduling
  import opened Bookings
  import opened World
  import opened Runs
  import Seats

  class Backend {
    var reference: Reference
    var trips: seq<Trip>
    var bookings: seq<Booking>
    var payments: seq<Payment>

    // what happened so far, kept for the specification only
    ghost var marks: seq<Mark>
    ghost var faults: set<Id>
    ghost var taken: set<Id>

    function State(): Db
      reads this
    {
      Db(reference, trips, bookings, payments)
    }

    ghost function History(): World
      reads this
    {
      World(State(), marks, faults, taken)
    }

    ghost predicate Valid()
      reads this
    {
      Invariant(History())
    }

    constructor (reference: Reference)
      ensures Valid() && History() == Opening(reference)
    {
      this.reference := reference;
      trips, bookings, payments := [], [], [];
      marks, faults, taken := [], {}, {};
    }

    method CreateTrip(route: Id, bus: Id, driver: Id, departure: int, arrival: Option<int>, status: Option<TripStatus>)
      returns (r: Outcome)
      requires Valid()
      modifies this
      ensures Valid() && History() == Next(old(History()),
                          CreateTripStep(route, bus, driver, departure, arrival, status))
      ensures r == Call(old(State()), CreateTripStep(route, bus, driver, departure, arrival, status)).outcome
    {
      ghost var next := Next(History(), CreateTripStep(route, bus, driver, departure, arrival, status));
      assert Invariant(next) by {
        InvariantStep(History(), CreateTripStep(route, bus, driver, departure, arrival, status));
      }
      if !BusExists(reference, bus) {
        r := Rejected(BusNotFound);
      } else if driver >= reference.drivers {
        r := Rejected(DriverNotFound);
      } else if route >= |reference.routes| {
        r := Rejected(RouteNotFound);
      } else {
        var arr := arrival;
        if arr.None? {
          arr := ArrivalTime(reference.routes[route], departure);
        }
        if arr.None? {
          r := Rejected(InvalidTime);
        } else if arr.value <= departure {
          r := Rejected(ArrivalNotAfterDeparture);
        } else if !DriverAvailable(trips, driver, departure, arr.value, None) {
          r := Rejected(DriverBusy);
        } else if !BusAvailable(trips, bus, departure, arr.value, None) {
          r := Rejected(BusBusy);
        } else {
          r := Done(|trips|);
          trips := trips + [Trip(route, Some(bus), Some(driver), Some(departure), arr, status.Or(Scheduled),
                                 Some(SeatsOf(reference, bus)), false)];
          marks := next.marks;
        }
      }
      assert History() == next;
    }

    method UpdateTrip(trip: Id, driver: Option<Id>, bus: Option<Id>) returns (r: Outcome)
      requires Valid()
      modifies this
      ensures Valid() && History() == Next(old(History()), UpdateTripStep(trip, driver, bus))
      ensures r == Call(old(State()), UpdateTripStep(trip, driver, bus)).outcome
    {
      ghost var next := Next(History(), UpdateTripStep(trip, driver, bus));
      assert Invariant(next) by { InvariantStep(History(), UpdateTripStep(trip, driver, bus)); }
      var found := FindTrip(State(), trip);
      if found.None? {
        r := Rejected(TripNotFound);
      } else {
        var t := found.value;
        var newDriver := driver.Some? && driver != t.driver;
        var newBus := bus.Some? && bus != t.bus;
        if (newDriver || newBus) && (t.departure.None? || t.arrival.None?) {
          r := Rejected(InvalidTime);
        } else if newDriver && !DriverAvailable(trips, driver.value, t.departure.value, t.arrival.value, Some(trip)) {
          r := Rejected(DriverBusy);
        } else if newBus && !BusAvailable(trips, bus.value, t.departure.value, t.arrival.value, Some(trip)) {
          r := Rejected(BusBusy);
        } else if newDriver && driver.value >= reference.drivers {
          r := Rejected(DriverNotFound);
        } else if newBus && bus.value >= |reference.buses| {
          r := Rejected(BusNotFound);
        } else {
          if driver.Some? {
            t := t.(driver := driver);
          }
          if bus.Some? {
            t := t.(bus := bus);
          }
          trips := trips[trip := t];
          r := Done(trip);
        }
      }
      assert History() == next;
    }

    method UpdateTripStatus(trip: Id, status: TripStatus) returns (r: Outcome)
      requires Valid()
      modifies this
      ensures Valid() && History() == Next(old(History()), UpdateTripStatusStep(trip, status))
      ensures r == Call(old(State()), UpdateTripStatusStep(trip, status)).outcome
    {
      ghost var next := Next(History(), UpdateTripStatusStep(trip, status));
      assert Invariant(next) by { InvariantStep(History(), UpdateTripStatusStep(trip, status)); }
      var found := FindTrip(State(), trip);
      if found.None? {
        r := Rejected(TripNotFound);
      } else if status !in ValidTransitions(found.value.status) {
        r := Rejected(IllegalTransition);
      } else {
        trips := trips[trip := found.value.(status := status)];
        marks := next.marks;
        r := Done(trip);
      }
      assert History() == next;
    }

    method CancelTrip(trip: Id) returns (r: Outcome)
      requires Valid()
      modifies this
      ensures Valid() && History() == Next(old(History()), CancelTripStep(trip))
      ensures r == Call(old(State()), CancelTripStep(trip)).outcome
    {
      ghost var next := Next(History(), CancelTripStep(trip));
      assert Invariant(next) by { InvariantStep(History(), CancelTripStep(trip)); }
      var found := FindTrip(State(), trip);
      if found.None? {
        r := Rejected(TripNotFound);
      } else if found.value.status == Completed || found.value.status == Cancelled {
        r := Rejected(TripIsOver);
      } else {
        bookings := CancelConfirmed(bookings, trip);
        trips := trips[trip := found.value.(status := Cancelled)];
        marks, taken := next.marks, next.taken;
        r := Done(trip);
      }
      assert History() == next;
    }

    method DeleteTrip(trip: Id) returns (r: Outcome)
      requires Valid()
      modifies this
      ensures Valid() && History() == Next(old(History()), DeleteTripStep(trip))
      ensures r == Call(old(State()), DeleteTripStep(trip)).outcome
    {
      ghost var next := Next(History(), DeleteTripStep(trip));
      assert Invariant(next) by { InvariantStep(History(), DeleteTripStep(trip)); }
      var found := FindTrip(State(), trip);
      if found.None? {
        r := Rejected(TripNotFound);
      } else if found.value.status != Scheduled && found.value.status != Cancelled {
        r := Rejected(TripNotDeletable);
      } else {
        trips := trips[trip := found.value.(deleted := true)];
        r := Done(trip);
      }
      assert History() == next;
    }

    /** The writes of `createBooking` behind the checks. */
    method Book(row: Booking)
      requires row.trip < |trips|
      modifies this`bookings, this`trips
      ensures State() == Booked(old(State()), row)
    {
      bookings := bookings + [row];
      var t := trips[row.trip];
      if t.availableSeats.Some? {
        trips := trips[row.trip := t.(availableSeats := Some(t.availableSeats.value - 1))];
      }
    }

    /** The checks in turn, then the writes. */
    method CheckAndBook(passenger: Id, trip: Id, seat: Option<string>, now: int) returns (r: Outcome)
      modifies this`bookings, this`trips
      ensures Reply(State(), r) == Bookings.CreateBooking(old(State()), passenger, trip, seat, now)
    {
      var refusal := TripRefusal(State(), trip, now);
      if refusal.Some? {
        return Rejected(refusal.value);
      }
      if Count(bookings, HeldBy(passenger, trip)) > 0 {
        return Rejected(DuplicateBooking);
      }
      if seat.Or("") != "" && Count(bookings, OnSeat(trip, seat.value)) != 0 {
        return Rejected(SeatTaken);
      }
      var available := trips[trip].availableSeats;
      if available.Some? && Count(bookings, ConfirmedOn(trip)) >= available.value {
        return Rejected(TripFull);
      }
      r := Done(|bookings|);
      var ticket := TicketNumber(now, |bookings|);
      Book(Booking(trip, passenger, seat, ticket, Pending, None));
    }

    method CreateBooking(passenger: Id, trip: Id, seat: Option<string>, now: int) returns (r: Outcome)
      requires Valid()
      modifies this
      ensures Valid() && History() == Next(old(History()), CreateBookingStep(passenger, trip, seat, now))
      ensures r == Call(old(State()), CreateBookingStep(passenger, trip, seat, now)).outcome
    {
      ghost var next := Next(History(), CreateBookingStep(passenger, trip, seat, now));
      assert Invariant(next) by { InvariantStep(History(), CreateBookingStep(passenger, trip, seat, now)); }
      Seats.NextCreateBooking(History(), passenger, trip, seat, now);
      r := CheckAndBook(passenger, trip, seat, now);
      assert History() == next;
    }

    method HandleFailedPayment(p: Id)
      requires p < |payments|
      modifies this`payments
      ensures payments == old(payments)[p := old(payments)[p].(status := Failed)]
    {
      payments := payments[p := payments[p].(status := Failed)];
    }

    method HandleSuccessfulPayment(p: Id, booking: Id)
      requires p < |payments| && booking < |bookings|
      modifies this`payments, this`bookings
      ensures payments == old(payments)[p := old(payments)[p].(status := Success)]
      ensures bookings == old(bookings)[booking := old(bookings)[booking].(status := Confirmed, payment := Some(p))]
    {
      payments := payments[p := payments[p].(status := Success)];
      bookings := bookings[booking := bookings[booking].(status := Confirmed, payment := Some(p))];
    }

    /** The part of `processPayment` behind the checks: the payment row, the gateway call and its outcome. */
    method Charge(booking: Id, row: Payment, gateway: Gateway, ticketIssued: bool) returns (r: Outcome)
      requires booking < |bookings| && row.status.Awaiting?
      modifies this`payments, this`bookings
      ensures payments == old(payments) +
                          [row.(status := if gateway.Approves? && ticketIssued then Success else Failed)]
      ensures bookings == if gateway.Approves?
                          then old(bookings)[booking :=
                             old(bookings)[booking].(status := Confirmed, payment := Some(|old(payments)|))]
                          else old(bookings)
      ensures r == match gateway
                   case Declines => Rejected(PaymentDeclined)
                   case Throws => Rejected(GatewayFailure)
                   case Approves => if ticketIssued then Done(|old(payments)|) else Rejected(TicketFailure)
    {
      var p := |payments|;
      payments := payments + [row];
      match gateway {
        case Approves =>
          HandleSuccessfulPayment(p, booking);
          r := Done(p);
          if !ticketIssued {
            HandleFailedPayment(p);
            r := Rejected(TicketFailure);
          }
        case Declines =>
          HandleFailedPayment(p);
          HandleFailedPayment(p);  // once more when the error just thrown is caught
          r := Rejected(PaymentDeclined);
        case Throws =>
          HandleFailedPayment(p);
          r := Rejected(GatewayFailure);
      }
    }

    method ProcessPayment(booking: Id, paymentMethod: Id, amount: real, gateway: Gateway, ticketIssued: bool)
      returns (r: Outcome)
      requires Valid()
      modifies this
      ensures Valid() && History() == Next(old(History()),
                          ProcessPaymentStep(booking, paymentMethod, amount, gateway, ticketIssued))
      ensures r == Call(old(State()), ProcessPaymentStep(booking, paymentMethod, amount, gateway, ticketIssued)).outcome
    {
      ghost var next := Next(History(), ProcessPaymentStep(booking, paymentMethod, amount, gateway, ticketIssued));
      assert Invariant(next) by {
        InvariantStep(History(), ProcessPaymentStep(booking, paymentMethod, amount, gateway, ticketIssued));
      }
      if booking >= |bookings| {
        r := Rejected(BookingNotFound);
      } else if bookings[booking].status != Pending {
        r := Rejected(BookingNotPending);
      } else if !MethodUsable(reference, paymentMethod, bookings[booking].passenger) {
        r := Rejected(MethodNotFound);
      } else {
        var wallet := reference.methods[paymentMethod].wallet;
        r := Charge(booking, Payment(bookings[booking].passenger, amount, wallet, booking, Awaiting),
                    gateway, ticketIssued);
        faults := next.faults;
      }
      assert History() == next;
    }

    method ProcessRefund(payment: Option<Id>)
      modifies this`payments
      ensures payments == Refund(old(payments), payment)
    {
      if payment.None? || payment.value >= |payments| { return; }
      if payments[payment.value].status != Success { return; }
      payments := payments[payment.value := payments[payment.value].(status := Refunded)];
    }

    method CancelBooking(booking: Id, user: Option<string>, now: int) returns (r: Outcome)
      requires Valid()
      modifies this
      ensures Valid() && History() == Next(old(History()), CancelBookingStep(booking, user, now))
      ensures r == Call(old(State()), CancelBookingStep(booking, user, now)).outcome
    {
      ghost var next := Next(History(), CancelBookingStep(booking, user, now));
      assert Invariant(next) by { InvariantStep(History(), CancelBookingStep(booking, user, now)); }
      if booking >= |bookings| {
        r := Rejected(BookingNotFound);
      } else {
        var b := bookings[booking];
        var trip := if b.trip < |trips| then Some(trips[b.trip]) else None;
        if user.Or("") != "" {
          r := Rejected(NotAuthorized);
        } else if b.status == Withdrawn {
          r := Rejected(AlreadyCancelled);
        } else if b.status == Confirmed && trip.Some? && trip.value.departure.Some?
                  && trip.value.departure.value - now < TWO_HOURS {
          r := Rejected(TooLateToCancel);
        } else {
          if b.payment.Some? {
            ProcessRefund(b.payment);
          }
          bookings := bookings[booking := b.(status := Withdrawn)];
          if trip.Some? && trip.value.availableSeats.Some? {
            trips := trips[b.trip := trip.value.(availableSeats := Some(trip.value.availableSeats.value + 1))];
          }
          r := Done(booking);
        }
      }
      assert History() == next;
    }

    /** Any change of buses, drivers, routes and payment methods by other services. */
    method Upkeep(reference: Reference)
      requires Valid()
      modifies this
      ensures Valid() && History() == Next(old(History()), UpkeepStep(reference))
    {
      ghost var next := Next(History(), UpkeepStep(reference));
      assert Invariant(next) by { InvariantStep(History(), UpkeepStep(reference)); }
      this.reference := reference;
      assert History() == next;
    }
  }
}
