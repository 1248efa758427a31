/** Who holds what: acceptance of bookings, no double booking, and unique ticket numbers. */
module Claims {
  import opened Options
  import opened Tables
  import opened Collections
  import opened Scheduling
  import opened Bookings
  import opened World
  import Seats
  import Text

  /** Nobody's active booking stands in the way of this one. */
  ghost predicate Unclaimed(bookings: seq<Booking>, trip: Id, passenger: Id, seat: Option<string>) {
    forall i: nat | i < |bookings| && bookings[i].status in {Pending, Confirmed} && bookings[i].trip == trip ::
      bookings[i].passenger != passenger && (bookings[i].seat == seat ==> seat.Or("") == "")
  }

  lemma UnclaimedByCounts(bookings: seq<Booking>, trip: Id, passenger: Id, seat: Option<string>)
    ensures Unclaimed(bookings, trip, passenger, seat) <==>
            Count(bookings, HeldBy(passenger, trip)) == 0
            && (seat.Or("") != "" ==> Count(bookings, OnSeat(trip, seat.value)) == 0)
  {
    CountPositive(bookings, HeldBy(passenger, trip));
    if seat.Or("") != "" {
      CountPositive(bookings, OnSeat(trip, seat.value));
    }
  }

  /**
   A booking is accepted exactly when the trip is open, nobody's active booking stands in the way and
   the stored counter exceeds the confirmed bookings; a refused call changes nothing.
   */
  lemma BookingAccepted(db: Db, passenger: Id, trip: Id, seat: Option<string>, now: int)
    ensures var reply := CreateBooking(db, passenger, trip, seat, now);
            (reply.outcome.Done? <==>
              && trip < |db.trips| && !db.trips[trip].deleted
              && db.trips[trip].status !in {Cancelled, Completed}
              && (db.trips[trip].departure.Some? ==> now <= db.trips[trip].departure.value)
              && Unclaimed(db.bookings, trip, passenger, seat)
              && (db.trips[trip].availableSeats.Some? ==>
                    Count(db.bookings, ConfirmedOn(trip)) < db.trips[trip].availableSeats.value))
            && (reply.outcome.Rejected? ==> reply.db == db)
  {
    UnclaimedByCounts(db.bookings, trip, passenger, seat);
  }

  /**
   An accepted booking adds one pending row without payment for this passenger, trip and seat, takes one seat
   off the trip's counter, if it has one, and changes nothing else. Its ticket text is `TKT-`, the last six
   characters of the clock and, after a dash, the number of the row.
   */
  lemma BookingRow(db: Db, passenger: Id, trip: Id, seat: Option<string>, now: int)
    requires CreateBooking(db, passenger, trip, seat, now).outcome.Done?
    ensures var reply := CreateBooking(db, passenger, trip, seat, now);
            && trip < |db.trips| && reply.outcome == Done(|db.bookings|)
            && |reply.db.bookings| == |db.bookings| + 1
            && var t, row := db.trips[trip], reply.db.bookings[|db.bookings|];
               && row == Booking(trip, passenger, seat, row.ticket, Pending, None)
               && reply.db == db.(bookings := db.bookings + [row],
                                  trips := if t.availableSeats.None? then db.trips else
                                             db.trips[trip := t.(availableSeats := Some(t.availableSeats.value - 1))])
               && exists front: string, stamp: string {:trigger front + stamp} ::
                    && Text.Signed(now) == front + stamp && (|stamp| == 6 || (|stamp| < 6 && front == ""))
                    && row.ticket == "TKT-" + stamp + "-" + Text.PadStart(Text.Decimal(|db.bookings| + 1), 4)
  {
    var clock := Text.Signed(now);
    var cut := if |clock| <= 6 then 0 else |clock| - 6;
    assert clock == clock[..cut] + clock[cut..];
    assert Text.LastChars(clock, 6) == clock[cut..];
  }

  /** A refused booking is told the first thing that is wrong: the trip, the passenger's other booking, or the seat. */
  lemma BookingRefused(db: Db, passenger: Id, trip: Id, seat: Option<string>, now: int)
    ensures var outcome := CreateBooking(db, passenger, trip, seat, now).outcome;
            && (outcome == Rejected(TripNotFound) <==> trip >= |db.trips| || db.trips[trip].deleted)
            && (trip < |db.trips| && !db.trips[trip].deleted ==>
                  var t := db.trips[trip];
                  && (outcome == Rejected(TripCancelled) <==> t.status == Cancelled)
                  && (outcome == Rejected(TripCompleted) <==> t.status == Completed)
                  && (t.status !in {Cancelled, Completed} ==>
                        (outcome == Rejected(TripDeparted) <==> t.departure.Some? && t.departure.value < now))
                  && (t.status !in {Cancelled, Completed} && !(t.departure.Some? && t.departure.value < now) ==>
                        var mine := exists i: nat | i < |db.bookings| ::
                                      Holds(db.bookings[i], trip) && db.bookings[i].passenger == passenger;
                        var onSeat := exists i: nat | i < |db.bookings| ::
                                        Holds(db.bookings[i], trip) && db.bookings[i].seat == seat;
                        && (outcome == Rejected(DuplicateBooking) <==> mine)
                        && (outcome == Rejected(SeatTaken) <==> !mine && seat !in {None, Some("")} && onSeat)))
  {
    CountPositive(db.bookings, HeldBy(passenger, trip));
    if seat.Or("") != "" { CountPositive(db.bookings, OnSeat(trip, seat.value)); }
  }

  ghost predicate Holds(b: Booking, trip: Id) {
    b.trip == trip && b.status in {Pending, Confirmed}
  }

  /** The same claims, held by at most the same bookings. */
  ghost predicate Thinned(before: seq<Booking>, after: seq<Booking>) {
    && |before| == |after|
    && forall i: nat | i < |after| ::
         && after[i].trip == before[i].trip && after[i].passenger == before[i].passenger
         && after[i].seat == before[i].seat && after[i].ticket == before[i].ticket
         && (Active(after[i]) ==> Active(before[i]))
  }

  /** Every call other than an accepted booking leaves the claims as they are or gives some up. */
  lemma OtherCallsThin(db: Db, step: Step)
    requires !step.CreateBookingStep? || Call(db, step).outcome.Rejected?
    ensures Thinned(db.bookings, Call(db, step).db.bookings)
  {
    match step {
      case CreateTripStep(_, _, _, _, _, _) =>
      case UpdateTripStep(_, _, _) =>
      case UpdateTripStatusStep(_, _) =>
      case CancelTripStep(_) =>
      case DeleteTripStep(_) =>
      case CreateBookingStep(passenger, trip, seat, now) => BookingAccepted(db, passenger, trip, seat, now);
      case ProcessPaymentStep(_, _, _, _, _) =>
      case CancelBookingStep(_, _, _) =>
      case UpkeepStep(_) =>
    }
  }

  lemma NewTicketNumbered(db: Db, passenger: Id, trip: Id, seat: Option<string>, now: int)
    requires CreateBooking(db, passenger, trip, seat, now).outcome.Done?
    ensures var after := CreateBooking(db, passenger, trip, seat, now).db.bookings;
            |after| == |db.bookings| + 1 && TicketOf(after[|db.bookings|].ticket, |db.bookings|)
  {
    var stamp := "TKT-" + Text.LastChars(Text.Signed(now), 6);
    assert TicketNumber(now, |db.bookings|) == stamp + "-" + Text.PadStart(Text.Decimal(|db.bookings| + 1), 4);
  }

  /** Every call keeps seats and passengers from being booked twice on a trip, and tickets numbered by row. */
  lemma {:induction false} ClaimsStep(w: World, step: Step)
    requires NoDoubleBooking(w.db.bookings) && TicketsNumbered(w.db.bookings)
    ensures NoDoubleBooking(Next(w, step).db.bookings) && TicketsNumbered(Next(w, step).db.bookings)
  {
    var bs, reply := w.db.bookings, Call(w.db, step);
    if step.CreateBookingStep? && reply.outcome.Done? {
      var passenger, trip, seat, now := step.passenger, step.trip, step.seat, step.now;
      Seats.BookingTakesSeat(w.db, passenger, trip, seat, now);
      BookingAccepted(w.db, passenger, trip, seat, now);
      NewTicketNumbered(w.db, passenger, trip, seat, now);
    } else {
      OtherCallsThin(w.db, step);
    }
  }

  // ----- tickets

  /** A ticket text belongs to one booking only: what follows its last dash is the number of the row. */
  lemma TicketIdentifies(ticket: string, i: Id, j: Id)
    requires TicketOf(ticket, i) && TicketOf(ticket, j)
    ensures i == j
  {
    var m, n := Text.PadStart(Text.Decimal(i + 1), 4), Text.PadStart(Text.Decimal(j + 1), 4);
    var a: string :| ticket == a + "-" + m;
    var b: string :| ticket == b + "-" + n;
    Text.PaddedReadsBack(i + 1, 4);
    Text.PaddedReadsBack(j + 1, 4);
    LastDash(a, m, b, n);
    Text.PaddedInjective(i + 1, j + 1, 4);
  }

  lemma DashInside(a: string, m: string, b: string, n: string)
    requires a + "-" + m == b + "-" + n
    requires |m| < |n|
    ensures n[|n| - |m| - 1] == '-'
  {
    assert (a + "-" + m)[|a|] == '-';
    assert (b + "-" + n)[|a|] == n[|n| - |m| - 1];
  }

  lemma LastDash(a: string, m: string, b: string, n: string)
    requires a + "-" + m == b + "-" + n
    requires Text.Digits(m) && Text.Digits(n)
    ensures m == n
  {
    if |m| < |n| {
      DashInside(a, m, b, n);
    } else if |n| < |m| {
      DashInside(b, n, a, m);
    } else {
      assert (a + "-" + m)[|a| + 1..] == m;
      assert (b + "-" + n)[|b| + 1..] == n;
    }
  }

  lemma {:induction false} FindTicketFinds(bookings: seq<Booking>, ticket: string)
    ensures match FindTicket(bookings, ticket)
            case None => forall i: nat :: i < |bookings| ==> bookings[i].ticket != ticket
            case Some(k) => k < |bookings| && bookings[k].ticket == ticket
  {
    if bookings != [] {
      var n := |bookings| - 1;
      FindTicketFinds(bookings[..n], ticket);
      assert forall i: nat :: i < n ==> bookings[..n][i] == bookings[i];
    }
  }

  /** No two bookings share a ticket number, and verifying a ticket looks at the very booking that carries it. */
  lemma TicketsUnique(db: Db, ticket: string, now: int)
    requires TicketsNumbered(db.bookings)
    ensures forall i: nat, j: nat :: i < j < |db.bookings| ==> db.bookings[i].ticket != db.bookings[j].ticket
    ensures forall i: nat :: i < |db.bookings| && db.bookings[i].ticket == ticket ==>
              FindTicket(db.bookings, ticket) == Some(i)
    ensures forall i: nat :: VerifyTicket(db, ticket, now) == Valid(i) <==>
              && i < |db.bookings| && db.bookings[i].ticket == ticket && db.bookings[i].status.Confirmed?
              && (db.bookings[i].trip < |db.trips| && db.trips[db.bookings[i].trip].departure.Some? ==>
                    now <= db.trips[db.bookings[i].trip].departure.value)
  {
    forall i: nat, j: nat | i < |db.bookings| && j < |db.bookings| && db.bookings[i].ticket == db.bookings[j].ticket
      ensures i == j
    {
      TicketIdentifies(db.bookings[i].ticket, i, j);
    }
    FindTicketFinds(db.bookings, ticket);
  }

  /**
   What verifying a ticket answers: unknown exactly if no booking carries the text; otherwise, for the booking
   that does, cancelled, not confirmed, departed or valid.
   */
  lemma VerdictOf(db: Db, ticket: string, now: int)
    requires TicketsNumbered(db.bookings)
    ensures VerifyTicket(db, ticket, now) == Unknown <==>
            forall i: nat | i < |db.bookings| :: db.bookings[i].ticket != ticket
    ensures forall i: nat | i < |db.bookings| && db.bookings[i].ticket == ticket ::
              var b := db.bookings[i];
              VerifyTicket(db, ticket, now) ==
              match b.status
              case Withdrawn => WasCancelled
              case Pending => NotConfirmed
              case Confirmed =>
                if b.trip < |db.trips| && db.trips[b.trip].departure.Some? && db.trips[b.trip].departure.value < now
                then Departed else Valid(i)
  {
    FindTicketFinds(db.bookings, ticket);
    TicketsUnique(db, ticket, now);
  }
}
