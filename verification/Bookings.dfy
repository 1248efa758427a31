/** Seat booking, payment and cancellation. */
module Bookings {
  import opened Options
  import opened Tables
  import opened Collections
  import opened Scheduling
  import Text

  predicate Active(b: Booking) {
    b.status.Pending? || b.status.Confirmed?
  }

  function ActiveOn(trip: Id): Booking -> bool {
    (b: Booking) => b.trip == trip && Active(b)
  }

  function PendingOn(trip: Id): Booking -> bool {
    (b: Booking) => b.trip == trip && b.status.Pending?
  }

  function HeldBy(passenger: Id, trip: Id): Booking -> bool {
    (b: Booking) => b.passenger == passenger && b.trip == trip && Active(b)
  }

  function OnSeat(trip: Id, seat: string): Booking -> bool {
    (b: Booking) => b.trip == trip && b.seat == Some(seat) && Active(b)
  }

  function SeatedOn(trip: Id): Booking -> bool {
    (b: Booking) => b.trip == trip && Active(b) && b.seat.Some?
  }

  /** `TKT-<last six characters of the clock>-<count + 1, padded to four>`. */
  function TicketNumber(now: int, count: nat): string {
    "TKT-" + Text.LastChars(Text.Signed(now), 6) + "-" + Text.PadStart(Text.Decimal(count + 1), 4)
  }

  /** Why a trip cannot be booked, if it cannot. */
  function TripRefusal(db: Db, trip: Id, now: int): Option<Error> {
    var found := FindTrip(db, trip);
    if found.None? then Some(TripNotFound)
    else if found.value.status.Cancelled? then Some(TripCancelled)
    else if found.value.status.Completed? then Some(TripCompleted)
    else if found.value.departure.Some? && found.value.departure.value < now then Some(TripDeparted)
    else None
  }

  /** The tables with one booking more and, if the trip counts its seats, one seat less. */
  function Booked(db: Db, row: Booking): Db
    requires row.trip < |db.trips|
  {
    var t := db.trips[row.trip];
    var trips := if t.availableSeats.Some?
                 then db.trips[row.trip := t.(availableSeats := Some(t.availableSeats.value - 1))]
                 else db.trips;
    db.(bookings := db.bookings + [row], trips := trips)
  }

  function CreateBooking(db: Db, passenger: Id, trip: Id, seat: Option<string>, now: int): Reply {
    var refusal := TripRefusal(db, trip, now);
    if refusal.Some? then Reply(db, Rejected(refusal.value))
    else if Count(db.bookings, HeldBy(passenger, trip)) > 0 then Reply(db, Rejected(DuplicateBooking))
    else if seat.Or("") != "" && Count(db.bookings, OnSeat(trip, seat.value)) != 0 then Reply(db, Rejected(SeatTaken))
    else
      var t := db.trips[trip];
      if t.availableSeats.Some? && Count(db.bookings, ConfirmedOn(trip)) >= t.availableSeats.value then
        Reply(db, Rejected(TripFull))
      else
        var row := Booking(trip, passenger, seat, TicketNumber(now, |db.bookings|), Pending, None);
        Reply(Booked(db, row), Done(|db.bookings|))
  }

  /** What the payment gateway does with a charge. */
  datatype Gateway = Approves | Declines | Throws

  predicate MethodUsable(reference: Reference, paymentMethod: Id, passenger: Id) {
    && paymentMethod < |reference.methods|
    && reference.methods[paymentMethod].owner == passenger
    && !reference.methods[paymentMethod].deleted
  }

  /** `ticketIssued` says whether the ticket step after an approved charge goes through. */
  function ProcessPayment(db: Db, booking: Id, paymentMethod: Id, amount: real, gateway: Gateway,
                          ticketIssued: bool): Reply {
    if booking >= |db.bookings| then Reply(db, Rejected(BookingNotFound))
    else
      var b := db.bookings[booking];
      if !b.status.Pending? then Reply(db, Rejected(BookingNotPending))
      else if !MethodUsable(db.reference, paymentMethod, b.passenger) then Reply(db, Rejected(MethodNotFound))
      else
        var p := |db.payments|;
        var row := Payment(b.passenger, amount, db.reference.methods[paymentMethod].wallet, booking, Failed);
        var confirmed := db.bookings[booking := b.(status := Confirmed, payment := Some(p))];
        match gateway
        case Declines => Reply(db.(payments := db.payments + [row]), Rejected(PaymentDeclined))
        case Throws => Reply(db.(payments := db.payments + [row]), Rejected(GatewayFailure))
        case Approves =>
          if ticketIssued then
            Reply(db.(payments := db.payments + [row.(status := Success)], bookings := confirmed), Done(p))
          else
            Reply(db.(payments := db.payments + [row], bookings := confirmed), Rejected(TicketFailure))
  }

  const TWO_HOURS := 2 * 60 * 60 * 1000

  /** The payments after `processRefund`: only a successful linked payment changes. */
  function Refund(payments: seq<Payment>, payment: Option<Id>): (r: seq<Payment>)
    ensures |r| == |payments|
  {
    if payment.Some? && payment.value < |payments| && payments[payment.value].status.Success? then
      payments[payment.value := payments[payment.value].(status := Refunded)]
    else payments
  }

  /** The permission check compares with a column bookings do not have, so any named user is refused. */
  function CancelBooking(db: Db, booking: Id, user: Option<string>, now: int): Reply {
    if booking >= |db.bookings| then Reply(db, Rejected(BookingNotFound))
    else
      var b := db.bookings[booking];
      var trip := if b.trip < |db.trips| then Some(db.trips[b.trip]) else None;
      if user.Or("") != "" then Reply(db, Rejected(NotAuthorized))
      else if b.status.Withdrawn? then Reply(db, Rejected(AlreadyCancelled))
      else if b.status.Confirmed? && trip.Some? && trip.value.departure.Some?
              && trip.value.departure.value - now < TWO_HOURS then Reply(db, Rejected(TooLateToCancel))
      else
        var trips := if trip.Some? && trip.value.availableSeats.Some?
                     then db.trips[b.trip := trip.value.(availableSeats := Some(trip.value.availableSeats.value + 1))]
                     else db.trips;
        Reply(db.(payments := Refund(db.payments, b.payment),
                  bookings := db.bookings[booking := b.(status := Withdrawn)], trips := trips), Done(booking))
  }

  // ----- reading

  /** `BookingService.getAvailableSeats`: `capacity || availableSeats || 0` less the bookings with a seat number. */
  function SeatsLeft(db: Db, trip: Id): Option<int> {
    var found := FindTrip(db, trip);
    if found.None? then None
    else
      var t := found.value;
      var capacity := if t.bus.Some? then SeatsOf(db.reference, t.bus.value) else 0;
      var total := if capacity != 0 then capacity else t.availableSeats.Or(0);
      Some(total - Count(db.bookings, SeatedOn(trip)))
  }

  /** `TripRepository.getAvailableSeats`: bus capacity less the confirmed bookings, never below 0. */
  function UnconfirmedSeats(db: Db, trip: Id): Option<int> {
    var found := FindTrip(db, trip);
    if found.None? then None
    else
      var capacity := if found.value.bus.Some? then SeatsOf(db.reference, found.value.bus.value) else 0;
      var left := capacity - Count(db.bookings, ConfirmedOn(trip));
      Some(if left > 0 then left else 0)
  }

  datatype Verdict = Unknown | WasCancelled | NotConfirmed | Departed | Valid(booking: Id)

  /** The first booking, if any, carrying this ticket number. */
  function FindTicket(bookings: seq<Booking>, ticket: string): Option<Id> {
    if bookings == [] then None
    else
      var earlier := FindTicket(bookings[..|bookings| - 1], ticket);
      if earlier.Some? then earlier
      else if bookings[|bookings| - 1].ticket == ticket then Some(|bookings| - 1) else None
  }

  function VerifyTicket(db: Db, ticket: string, now: int): Verdict {
    var found := FindTicket(db.bookings, ticket);
    if found.None? || found.value >= |db.bookings| then Unknown
    else
      var b := db.bookings[found.value];
      if b.status.Withdrawn? then WasCancelled
      else if !b.status.Confirmed? then NotConfirmed
      else if b.trip < |db.trips| && db.trips[b.trip].departure.Some?
              && db.trips[b.trip].departure.value < now then Departed
      else Valid(found.value)
  }
}
