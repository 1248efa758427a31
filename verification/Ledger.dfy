/** Payments and bookings tell the same story, and the money adds up. */
module Ledger {
  import opened Options
  import opened Tables
  import opened Collections
  import opened Scheduling
  import opened Bookings
  import opened World
  import Seats

  /** Booking and payment refer to each other. */
  predicate Linked(db: Db, b: Id)
    requires b < |db.bookings|
  {
    && db.bookings[b].payment.Some?
    && db.bookings[b].payment.value < |db.payments|
    && db.payments[db.bookings[b].payment.value].booking == b
  }

  /** The status of the payment a booking is linked to. */
  function LinkedStatus(db: Db, b: Id): PaymentStatus
    requires b < |db.bookings| && Linked(db, b)
  {
    db.payments[db.bookings[b].payment.value].status
  }

  /** What a booking's payment must look like, given what happened. */
  ghost predicate BookingSettled(w: World, b: Id)
    requires b < |w.db.bookings|
  {
    var booking := w.db.bookings[b];
    && (booking.payment.Some? ==> Linked(w.db, b))
    && match booking.status
       case Pending => booking.payment.None? && b !in w.taken
       case Confirmed =>
         booking.payment.Some? && b !in w.taken
         && LinkedStatus(w.db, b) == if booking.payment.value in w.faults then Failed else Success
       case Withdrawn =>
         if b in w.taken then
           booking.payment.Some?
           && LinkedStatus(w.db, b) == if booking.payment.value in w.faults then Failed else Success
         else
           booking.payment.Some? ==>
             LinkedStatus(w.db, b) == if booking.payment.value in w.faults then Failed else Refunded
  }

  /** Every payment is for a booking; unless it failed plainly, that booking is linked to it. */
  ghost predicate PaymentSettled(w: World, p: Id)
    requires p < |w.db.payments|
  {
    var payment := w.db.payments[p];
    && payment.booking < |w.db.bookings|
    && !payment.status.Awaiting?
    && (payment.status.Success? || payment.status.Refunded? || p in w.faults ==>
          w.db.bookings[payment.booking].payment == Some(p))
  }

  function Taken(): Payment -> real {
    (p: Payment) => if p.status.Success? then p.amount else 0.0
  }

  function SuccessAmount(payments: seq<Payment>, payment: Option<Id>): real {
    if payment.Some? && payment.value < |payments| && payments[payment.value].status.Success?
    then payments[payment.value].amount else 0.0
  }

  /** The money held for a booking. */
  function Held(payments: seq<Payment>): Booking -> real {
    (b: Booking) => SuccessAmount(payments, b.payment)
  }

  ghost predicate Settled(w: World) {
    && (forall b: nat | b < |w.db.bookings| :: BookingSettled(w, b))
    && (forall p: nat | p < |w.db.payments| :: PaymentSettled(w, p))
    && (forall p | p in w.faults :: p < |w.db.payments|)
    && (forall b | b in w.taken :: b < |w.db.bookings|)
  }

  ghost predicate Balanced(db: Db) {
    Sum(db.payments, Taken()) == Sum(db.bookings, Held(db.payments))
  }

  // ----- payments and cancellations

  /**
   A payment is attempted exactly for a pending booking and a payment method of its passenger that is not
   deleted. An attempt adds one payment row of the passenger over the amount given, successful exactly
   after an approved charge and an issued ticket and failed otherwise; the booking is confirmed and linked
   to it exactly after an approved charge. Without an attempt nothing changes.
   */
  lemma PaymentAttempted(db: Db, booking: Id, paymentMethod: Id, amount: real, gateway: Gateway, ticketIssued: bool)
    ensures var reply := ProcessPayment(db, booking, paymentMethod, amount, gateway, ticketIssued);
            if booking < |db.bookings| && db.bookings[booking].status.Pending?
               && paymentMethod < |db.reference.methods| && !db.reference.methods[paymentMethod].deleted
               && db.reference.methods[paymentMethod].owner == db.bookings[booking].passenger
            then
              var b, p := db.bookings[booking], |db.payments|;
              && reply.db == db.(
                   payments := db.payments + [
                     Payment(b.passenger, amount, db.reference.methods[paymentMethod].wallet, booking,
                             if gateway == Approves && ticketIssued then Success else Failed)],
                   bookings := if gateway == Approves
                               then db.bookings[booking := b.(status := Confirmed, payment := Some(p))]
                               else db.bookings)
              && (reply.outcome == Done(p) <==> gateway == Approves && ticketIssued)
              && (reply.outcome == Rejected(PaymentDeclined) <==> gateway == Declines)
              && (reply.outcome == Rejected(GatewayFailure) <==> gateway == Throws)
              && (reply.outcome == Rejected(TicketFailure) <==> gateway == Approves && !ticketIssued)
            else
              && reply.db == db
              && reply.outcome == Rejected(if booking >= |db.bookings| then BookingNotFound
                                           else if db.bookings[booking].status.Pending? then MethodNotFound
                                           else BookingNotPending)
  {
  }

  /**
   A cancellation goes through exactly when no user is named, the booking is not cancelled yet and, if it
   is confirmed, its trip departs in two hours or more; a refused one changes nothing and says why. An
   accepted one withdraws this booking, gives one seat back to the counter of its trip, if that has one, and
   refunds the payment it is linked to, if that was successful, and changes nothing else in any row.
   */
  lemma CancellationAccepted(db: Db, booking: Id, user: Option<string>, now: int)
    requires forall i: nat | i < |db.bookings| :: db.bookings[i].trip < |db.trips|
    ensures var reply := CancelBooking(db, booking, user, now);
            if booking >= |db.bookings| then reply == Reply(db, Rejected(BookingNotFound))
            else
              var b := db.bookings[booking];
              var t := db.trips[b.trip];
              var tooLate := b.status == Confirmed && t.departure.Some? && t.departure.value < now + 7_200_000;
              && (reply == Reply(db, Rejected(NotAuthorized)) <==> user !in {None, Some("")})
              && (reply == Reply(db, Rejected(AlreadyCancelled)) <==> user in {None, Some("")} && b.status == Withdrawn)
              && (reply == Reply(db, Rejected(TooLateToCancel)) <==> user in {None, Some("")} && tooLate)
              && (user in {None, Some("")} && b.status != Withdrawn && !tooLate <==> reply.outcome == Done(booking))
              && (reply.outcome == Done(booking) ==>
                    && reply.db.reference == db.reference
                    && reply.db.bookings == db.bookings[booking := b.(status := Withdrawn)]
                    && reply.db.trips == (if t.availableSeats.None? then db.trips else
                                            db.trips[b.trip := t.(availableSeats := Some(t.availableSeats.value + 1))])
                    && |reply.db.payments| == |db.payments|
                    && forall p: nat | p < |db.payments| ::
                         reply.db.payments[p] == if b.payment == Some(p) && db.payments[p].status == Success
                                                 then db.payments[p].(status := Refunded) else db.payments[p])
  {
  }

  // ----- the books stay settled

  lemma SettledBooking(w: World, passenger: Id, trip: Id, seat: Option<string>, now: int)
    requires WellFormed(w) && Settled(w)
    ensures Settled(Next(w, CreateBookingStep(passenger, trip, seat, now)))
  {
    var w' := Next(w, CreateBookingStep(passenger, trip, seat, now));
    if CreateBooking(w.db, passenger, trip, seat, now).outcome.Done? {
      Seats.BookingTakesSeat(w.db, passenger, trip, seat, now);
      SettledAppend(w, w');
    } else {
      assert w'.db == w.db;
      SameRowsSettled(w, w');
    }
  }

  lemma SettledAppend(w: World, w': World)
    requires Settled(w) && w'.faults == w.faults && w'.taken == w.taken && w'.db.payments == w.db.payments
    requires |w'.db.bookings| == |w.db.bookings| + 1
    requires w'.db.bookings == w.db.bookings + [w'.db.bookings[|w.db.bookings|]]
    requires w'.db.bookings[|w.db.bookings|].status.Pending? && w'.db.bookings[|w.db.bookings|].payment.None?
    ensures Settled(w')
  {
    forall b: nat | b < |w'.db.bookings| ensures BookingSettled(w', b) {
      if b < |w.db.bookings| { assert BookingSettled(w, b); }
    }
    forall p: nat | p < |w'.db.payments| ensures PaymentSettled(w', p) {
      assert PaymentSettled(w, p);
    }
  }

  lemma SameRowsSettled(w: World, w': World)
    requires Settled(w) && w'.faults == w.faults && w'.taken == w.taken
    requires w'.db.payments == w.db.payments && w'.db.bookings == w.db.bookings
    ensures Settled(w')
  {
    forall b: nat | b < |w'.db.bookings| ensures BookingSettled(w', b) { assert BookingSettled(w, b); }
    forall p: nat | p < |w'.db.payments| ensures PaymentSettled(w', p) { assert PaymentSettled(w, p); }
  }

  lemma SettledPayment(w: World, step: Step)
    requires step.ProcessPaymentStep?
    requires WellFormed(w) && Settled(w)
    ensures Settled(Next(w, step))
  {
    var w' := Next(w, step);
    forall b: nat | b < |w'.db.bookings| ensures BookingSettled(w', b) { assert BookingSettled(w, b); }
    forall p: nat | p < |w'.db.payments| ensures PaymentSettled(w', p) {
      if p < |w.db.payments| {
        assert PaymentSettled(w, p);
        assert BookingSettled(w, w.db.payments[p].booking);
      }
    }
  }

  lemma SettledCancel(w: World, step: Step)
    requires step.CancelBookingStep?
    requires WellFormed(w) && Settled(w)
    ensures Settled(Next(w, step))
  {
    var w' := Next(w, step);
    if Call(w.db, step).outcome.Rejected? {
      SameRowsSettled(w, w');
    } else {
      assert BookingSettled(w, step.booking);
      forall b: nat | b < |w'.db.bookings| ensures BookingSettled(w', b) { assert BookingSettled(w, b); }
      forall p: nat | p < |w'.db.payments| ensures PaymentSettled(w', p) { assert PaymentSettled(w, p); }
    }
  }

  lemma SettledCancelTrip(w: World, trip: Id)
    requires WellFormed(w) && Settled(w)
    ensures Settled(Next(w, CancelTripStep(trip)))
  {
    var w' := Next(w, CancelTripStep(trip));
    if CancelTrip(w.db, trip).outcome.Rejected? {
      SameRowsSettled(w, w');
    } else {
      forall b: nat | b < |w'.db.bookings| ensures BookingSettled(w', b) { assert BookingSettled(w, b); }
      forall p: nat | p < |w'.db.payments| ensures PaymentSettled(w', p) { assert PaymentSettled(w, p); }
    }
  }

  /** Every call keeps bookings and payments settled. */
  lemma SettledStep(w: World, step: Step)
    requires WellFormed(w) && Settled(w)
    ensures Settled(Next(w, step))
  {
    match step {
      case CreateBookingStep(passenger, trip, seat, now) => SettledBooking(w, passenger, trip, seat, now);
      case ProcessPaymentStep(_, _, _, _, _) => SettledPayment(w, step);
      case CancelBookingStep(_, _, _) => SettledCancel(w, step);
      case CancelTripStep(trip) => SettledCancelTrip(w, trip);
      case CreateTripStep(_, _, _, _, _, _) => SameRowsSettled(w, Next(w, step));
      case UpdateTripStep(_, _, _) => SameRowsSettled(w, Next(w, step));
      case UpdateTripStatusStep(_, _) => SameRowsSettled(w, Next(w, step));
      case DeleteTripStep(_) => SameRowsSettled(w, Next(w, step));
      case UpkeepStep(_) => SameRowsSettled(w, Next(w, step));
    }
  }

  // ----- the money adds up

  lemma BalancedPayment(w: World, step: Step)
    requires step.ProcessPaymentStep?
    requires Settled(w) && Balanced(w.db)
    ensures Balanced(Next(w, step).db)
  {
    var db, db' := w.db, Next(w, step).db;
    if |db'.payments| > |db.payments| {
      var p, b := |db.payments|, step.booking;
      var row := db'.payments[p];
      assert db'.payments == db.payments + [row];
      SumAppend(db.payments, row, Taken());
      assert BookingSettled(w, b);
      SumUpdate(db.bookings, b, db'.bookings[b], Held(db'.payments));
      assert db'.bookings == db.bookings[b := db'.bookings[b]];
      forall i: nat | i < |db.bookings|
        ensures Held(db.payments)(db.bookings[i]) == Held(db'.payments)(db.bookings[i])
      {
        assert BookingSettled(w, i);
      }
      SumSame(db.bookings, db.bookings, Held(db.payments), Held(db'.payments));
    }
  }

  lemma BalancedCancel(w: World, step: Step)
    requires step.CancelBookingStep?
    requires Settled(w) && Balanced(w.db)
    ensures Balanced(Next(w, step).db)
  {
    var db, db' := w.db, Next(w, step).db;
    if Call(db, step).outcome.Done? {
      var b := step.booking;
      var unpaid := db.bookings[b].(payment := None);
      var others := db.bookings[b := unpaid];
      assert BookingSettled(w, b);
      SumUpdate(db.bookings, b, unpaid, Held(db.payments));
      forall i: nat | i < |others| ensures Held(db.payments)(others[i]) == Held(db'.payments)(others[i]) {
        assert BookingSettled(w, i);
      }
      SumSame(others, others, Held(db.payments), Held(db'.payments));
      SumUpdate(others, b, db'.bookings[b], Held(db'.payments));
      assert others[b := db'.bookings[b]] == db'.bookings;
      if db'.payments != db.payments {
        var p := db.bookings[b].payment.value;
        SumUpdate(db.payments, p, db'.payments[p], Taken());
      }
    }
  }

  /** Every call keeps the successful payments equal to the money held for bookings. */
  lemma BalancedStep(w: World, step: Step)
    requires WellFormed(w) && Settled(w) && Balanced(w.db)
    ensures Balanced(Next(w, step).db)
  {
    var db, db' := w.db, Next(w, step).db;
    match step {
      case CreateBookingStep(passenger, trip, seat, now) =>
        if Call(db, step).outcome.Done? {
          Seats.BookingTakesSeat(db, passenger, trip, seat, now);
          SumAppend(db.bookings, db'.bookings[|db.bookings|], Held(db.payments));
        }
      case ProcessPaymentStep(_, _, _, _, _) => BalancedPayment(w, step);
      case CancelBookingStep(_, _, _) => BalancedCancel(w, step);
      case CancelTripStep(trip) => SumSame(db.bookings, db'.bookings, Held(db.payments), Held(db'.payments));
      case CreateTripStep(_, _, _, _, _, _) =>
      case UpdateTripStep(_, _, _) =>
      case UpdateTripStatusStep(_, _) =>
      case DeleteTripStep(_) =>
      case UpkeepStep(_) =>
    }
  }
}
