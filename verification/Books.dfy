/** Whether bookings and payments tell the same story after a run. */
module Books {
  import opened Options
  import opened Tables
  import opened Collections
  import opened Scheduling
  import opened Bookings
  import opened World
  import opened Runs
  import Claims
  import Ledger

  /** A confirmed booking has a successful payment made for it; a cancelled booking that was paid, a refunded one. */
  ghost predicate BookingAgrees(db: Db, b: Id)
    requires b < |db.bookings|
  {
    && (db.bookings[b].status.Confirmed? ==> Ledger.Linked(db, b) && Ledger.LinkedStatus(db, b).Success?)
    && (db.bookings[b].status.Withdrawn? && db.bookings[b].payment.Some? ==>
          Ledger.Linked(db, b) && Ledger.LinkedStatus(db, b).Refunded?)
  }

  /** A successful payment is the payment of the confirmed booking it was made for. */
  ghost predicate PaymentAgrees(db: Db, p: Id)
    requires p < |db.payments|
  {
    db.payments[p].status.Success? ==>
      && db.payments[p].booking < |db.bookings|
      && db.bookings[db.payments[p].booking].status.Confirmed?
      && db.bookings[db.payments[p].booking].payment == Some(p)
  }

  ghost predicate BooksAgree(db: Db) {
    && (forall b: nat | b < |db.bookings| :: BookingAgrees(db, b))
    && (forall p: nat | p < |db.payments| :: PaymentAgrees(db, p))
  }

  /** No ticket failed after an approved charge, and `cancelTrip` took no confirmed booking away. */
  predicate Quiet(w: World) {
    w.faults == {} && w.taken == {}
  }

  lemma SettledAgrees(w: World)
    requires Ledger.Settled(w)
    ensures BooksAgree(w.db) <==> Quiet(w)
  {
    if w.taken != {} {
      var b :| b in w.taken;
      assert Ledger.BookingSettled(w, b);
      assert !BookingAgrees(w.db, b);
    } else if w.faults != {} {
      var p :| p in w.faults;
      assert Ledger.PaymentSettled(w, p);
      assert Ledger.BookingSettled(w, w.db.payments[p].booking);
      assert !BookingAgrees(w.db, w.db.payments[p].booking);
    } else {
      forall b: nat | b < |w.db.bookings| ensures BookingAgrees(w.db, b) {
        assert Ledger.BookingSettled(w, b);
      }
      forall p: nat | p < |w.db.payments| ensures PaymentAgrees(w.db, p) {
        assert Ledger.PaymentSettled(w, p);
        assert Ledger.BookingSettled(w, w.db.payments[p].booking);
      }
    }
  }

  // ----- when the books disagree

  /**
   The calls that put the books out of order: a charge that the gateway approves but for which no ticket
   can be issued, and the cancellation of a trip that has confirmed bookings.
   */
  predicate BreaksBooks(db: Db, step: Step) {
    match step
    case ProcessPaymentStep(booking, paymentMethod, _, gateway, ticketIssued) =>
      && booking < |db.bookings| && db.bookings[booking].status.Pending?
      && paymentMethod < |db.reference.methods| && !db.reference.methods[paymentMethod].deleted
      && db.reference.methods[paymentMethod].owner == db.bookings[booking].passenger
      && gateway.Approves? && !ticketIssued
    case CancelTripStep(trip) =>
      && trip < |db.trips| && !db.trips[trip].deleted && !IsOver(db.trips[trip].status)
      && Count(db.bookings, ConfirmedOn(trip)) > 0
    case _ => false
  }

  /** The history grows by exactly the calls that break the books. */
  lemma HistoryStep(w: World, step: Step)
    ensures Quiet(Next(w, step)) <==> Quiet(w) && !BreaksBooks(w.db, step)
  {
    if step.CancelTripStep? {
      CountPositive(w.db.bookings, ConfirmedOn(step.trip));
      var ids := ConfirmedIds(w.db.bookings, step.trip);
      assert ids != {} <==> exists i: nat :: i < |w.db.bookings| && ConfirmedOn(step.trip)(w.db.bookings[i]) by {
        if i: nat :| i < |w.db.bookings| && ConfirmedOn(step.trip)(w.db.bookings[i]) {
          assert i in ids;
        }
      }
    }
  }

  /** The `k`th call of the run breaks the books in the state it meets. */
  predicate BreaksAt(w: World, steps: seq<Step>, k: nat)
    requires k < |steps|
  {
    BreaksBooks(Run(w, steps[..k]).db, steps[k])
  }

  ghost predicate NoneBreaks(w: World, steps: seq<Step>) {
    forall k: nat | k < |steps| :: !BreaksAt(w, steps, k)
  }

  lemma NoneBreaksFront(w: World, front: seq<Step>, last: Step)
    ensures NoneBreaks(w, front + [last]) <==> NoneBreaks(w, front) && !BreaksBooks(Run(w, front).db, last)
  {
    var steps := front + [last];
    forall k: nat | k < |front| ensures BreaksAt(w, steps, k) == BreaksAt(w, front, k) {
      assert front[..k] == steps[..k];
    }
    assert BreaksAt(w, steps, |front|) == BreaksBooks(Run(w, front).db, last) by {
      assert steps[..|front|] == front;
    }
  }

  lemma HistoryLast(w: World, front: seq<Step>, last: Step)
    ensures Quiet(Run(w, front + [last])) <==> Quiet(Run(w, front)) && !BreaksBooks(Run(w, front).db, last)
  {
    assert (front + [last])[..|front|] == front;
    HistoryStep(Run(w, front), last);
  }

  lemma {:induction false} HistoryRun(w: World, steps: seq<Step>)
    ensures Quiet(Run(w, steps)) <==> Quiet(w) && NoneBreaks(w, steps)
  {
    if steps != [] {
      var front, last := steps[..|steps| - 1], steps[|steps| - 1];
      assert steps == front + [last];
      HistoryRun(w, front);
      HistoryLast(w, front, last);
      NoneBreaksFront(w, front, last);
    }
  }

  /** After a call the books agree exactly when they did before and the call is none of those that break them. */
  lemma BooksStep(w: World, step: Step)
    requires Invariant(w)
    ensures BooksAgree(Next(w, step).db) <==> BooksAgree(w.db) && !BreaksBooks(w.db, step)
  {
    InvariantStep(w, step);
    SettledAgrees(w);
    SettledAgrees(Next(w, step));
    HistoryStep(w, step);
  }

  /**
   After every run, for any gateway outcomes, the books agree exactly when they did at its start and none
   of its calls breaks them; books once broken are never put right. That is when no ticket failed after
   an approved charge and `cancelTrip` took no confirmed booking away.
   */
  lemma {:induction false} LedgerSound(w: World, steps: seq<Step>)
    requires Invariant(w)
    ensures BooksAgree(Run(w, steps).db) <==> BooksAgree(w.db) && NoneBreaks(w, steps)
    ensures BooksAgree(Run(w, steps).db) <==> Quiet(Run(w, steps))
  {
    InvariantRun(w, steps);
    SettledAgrees(w);
    SettledAgrees(Run(w, steps));
    HistoryRun(w, steps);
  }

  /** The charge did not go through, or was not kept. */
  predicate Unsuccessful(p: Payment) {
    !p.status.Success? && !p.status.Refunded?
  }

  /**
   After every run no payment is left pending, a payment is linked to at most one booking, and no booking
   is charged twice.
   */
  lemma PaymentsNotShared(w: World, steps: seq<Step>, p: Id, b: Id, c: Id)
    requires Invariant(w)
    requires var db := Run(w, steps).db; p < |db.payments| && b < |db.bookings| && c < |db.bookings|
    ensures var db := Run(w, steps).db;
            && !db.payments[p].status.Awaiting?
            && (db.bookings[b].payment == Some(p) && db.bookings[c].payment == Some(p) ==> b == c)
            && forall q: nat | q < |db.payments| && q != p && db.payments[q].booking == db.payments[p].booking ::
                 Unsuccessful(db.payments[p]) || Unsuccessful(db.payments[q])
  {
    InvariantRun(w, steps);
    var w' := Run(w, steps);
    assert Ledger.PaymentSettled(w', p) && Ledger.BookingSettled(w', b) && Ledger.BookingSettled(w', c);
    forall q: nat | q < |w'.db.payments| && q != p && w'.db.payments[q].booking == w'.db.payments[p].booking
      ensures Unsuccessful(w'.db.payments[p]) || Unsuccessful(w'.db.payments[q])
    {
      assert Ledger.PaymentSettled(w', q);
    }
  }

  function PaidIf(payments: seq<Payment>, status: BookingStatus): Booking -> real {
    (b: Booking) => if b.status == status then Ledger.SuccessAmount(payments, b.payment) else 0.0
  }

  /**
   After every run the successful payments add up to what was paid for confirmed bookings plus what is
   still held for cancelled ones; the latter is nothing as long as `cancelTrip` took no booking away.
   */
  lemma {:induction false} TakingsBalance(w: World, steps: seq<Step>)
    requires Invariant(w)
    ensures var w' := Run(w, steps);
            var confirmed := Sum(w'.db.bookings, PaidIf(w'.db.payments, Confirmed));
            && Sum(w'.db.payments, Ledger.Taken()) == confirmed + Sum(w'.db.bookings, PaidIf(w'.db.payments, Withdrawn))
            && (w'.taken == {} ==> Sum(w'.db.payments, Ledger.Taken()) == confirmed)
  {
    InvariantRun(w, steps);
    var w' := Run(w, steps);
    var bs, ps := w'.db.bookings, w'.db.payments;
    forall b: nat | b < |bs|
      ensures Ledger.Held(ps)(bs[b]) == PaidIf(ps, Confirmed)(bs[b]) + PaidIf(ps, Withdrawn)(bs[b])
      ensures w'.taken == {} ==> Ledger.Held(ps)(bs[b]) == PaidIf(ps, Confirmed)(bs[b])
    {
      assert Ledger.BookingSettled(w', b);
    }
    SumSplit(bs, bs, bs, Ledger.Held(ps), PaidIf(ps, Confirmed), PaidIf(ps, Withdrawn));
    if w'.taken == {} {
      SumSame(bs, bs, Ledger.Held(ps), PaidIf(ps, Confirmed));
    }
  }

  /**
   In runs of any calls but `cancelTrip`, for any gateway outcomes and with every ticket issued, confirmed
   bookings and successful payments correspond one to one, what was paid and cancelled is refunded, and
   the successful payments add up to what was paid for the confirmed bookings.
   */
  lemma {:induction false} LedgerWithoutTripCancellation(w: World, steps: seq<Step>)
    requires Invariant(w) && BooksAgree(w.db)
    requires forall i :: 0 <= i < |steps| ==>
               !steps[i].CancelTripStep? && (steps[i].ProcessPaymentStep? ==> steps[i].ticketIssued)
    ensures var db := Run(w, steps).db;
            BooksAgree(db) && Sum(db.payments, Ledger.Taken()) == Sum(db.bookings, PaidIf(db.payments, Confirmed))
  {
    LedgerSound(w, steps);
    TakingsBalance(w, steps);
  }

  // ----- a bus with two seats, one of them booked and paid for

  const TWO_SEATS :=
    Reference([Bus(Some(2), InService, false)], 1, [Route(None, 0, false)], [PaymentMethod(0, false, false)])
  const PLAN := CreateTripStep(0, 0, 0, 0, Some(100), None)
  const BOOK := CreateBookingStep(0, 0, None, 0)

  function Pay(ticketIssued: bool): Step {
    ProcessPaymentStep(0, 0, 10.0, Approves, ticketIssued)
  }

  function SeatsOpen(seats: int): Trip {
    Trip(0, Some(0), Some(0), Some(0), Some(100), Scheduled, Some(seats), false)
  }

  function TheBooking(status: BookingStatus, payment: Option<Id>): Booking {
    Booking(0, 0, None, TicketNumber(0, 0), status, payment)
  }

  const BOOKED := Db(TWO_SEATS, [SeatsOpen(1)], [TheBooking(Pending, None)], [])
  const PAID := Db(TWO_SEATS, [SeatsOpen(1)], [TheBooking(Confirmed, Some(0))], [Payment(0, 10.0, false, 0, Success)])

  lemma BookedRun()
    ensures Run(Opening(TWO_SEATS), [PLAN] + [BOOK]).db == BOOKED
  {
    RunAppend(Opening(TWO_SEATS), [], PLAN);
    assert [] + [PLAN] == [PLAN];
    var planned := Db(TWO_SEATS, [SeatsOpen(2)], [], []);
    assert Call(Opening(TWO_SEATS).db, PLAN).db == planned;
    RunAppend(Opening(TWO_SEATS), [PLAN], BOOK);
    assert Call(planned, BOOK).db == BOOKED by {
      assert planned.trips[0 := SeatsOpen(1)] == BOOKED.trips;
      assert CreateBooking(planned, 0, 0, None, 0).db == Booked(planned, TheBooking(Pending, None));
    }
  }

  lemma PaidRun()
    ensures Run(Opening(TWO_SEATS), [PLAN] + [BOOK] + [Pay(true)]).db == PAID
  {
    BookedRun();
    RunAppend(Opening(TWO_SEATS), [PLAN] + [BOOK], Pay(true));
    assert BOOKED.bookings[0 := TheBooking(Confirmed, Some(0))] == PAID.bookings;
  }

  /** One seat is free and one booking paid for; the next passenger is turned away. */
  lemma FreeSeatRefused(seat: Option<string>)
    ensures var db := Run(Opening(TWO_SEATS), [PLAN] + [BOOK] + [Pay(true)]).db;
            && |db.trips| == 1 && db.trips[0].availableSeats == Some(1)
            && CreateBooking(db, 1, 0, seat, 0).outcome == Rejected(TripFull)
  {
    PaidRun();
    Claims.BookingAccepted(PAID, 1, 0, seat, 0);
    assert Count(PAID.bookings, ConfirmedOn(0)) == 1 && Count(PAID.bookings, HeldBy(1, 0)) == 0;
  }

  /** Cancelling the trip then leaves a successful payment without a confirmed booking. */
  lemma TripCancellationBreaksBooks()
    ensures !BooksAgree(Run(Opening(TWO_SEATS), [PLAN] + [BOOK] + [Pay(true)] + [CancelTripStep(0)]).db)
  {
    var steps := [PLAN] + [BOOK] + [Pay(true)];
    PaidRun();
    assert Count(PAID.bookings, ConfirmedOn(0)) == 1;
    Reachable(TWO_SEATS, steps);
    BooksStep(Run(Opening(TWO_SEATS), steps), CancelTripStep(0));
    assert (steps + [CancelTripStep(0)])[..|steps|] == steps;
  }

  /** A ticket failure leaves a confirmed booking with a failed payment. */
  lemma TicketFailureBreaksBooks()
    ensures !BooksAgree(Run(Opening(TWO_SEATS), [PLAN] + [BOOK] + [Pay(false)]).db)
  {
    var steps := [PLAN] + [BOOK];
    BookedRun();
    Reachable(TWO_SEATS, steps);
    BooksStep(Run(Opening(TWO_SEATS), steps), Pay(false));
    assert (steps + [Pay(false)])[..|steps|] == steps;
  }
}
