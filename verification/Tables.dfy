/**
 The rows of one tenant's database. A table is a sequence; a row's id is its position, so a created
 row gets a new id and no row ever disappears (deletion sets a flag). Times are milliseconds.
 */
module Tables {
  import opened Options

  type Id = nat

  datatype BusStatus = InService | UnderMaintenance | OutOfService
  datatype Bus = Bus(capacity: Option<int>, status: BusStatus, deleted: bool)
  datatype Route = Route(estimatedTime: Option<string>, stationCount: nat, deleted: bool)
  datatype PaymentMethod = PaymentMethod(owner: Id, wallet: bool, deleted: bool)

  /** The tables the booking and trip services only read; drivers are numbered below `drivers`. */
  datatype Reference = Reference(buses: seq<Bus>, drivers: nat, routes: seq<Route>, methods: seq<PaymentMethod>)

  datatype TripStatus = Scheduled | Boarding | InProgress | Delayed | Completed | Cancelled
  datatype Trip = Trip(route: Id, bus: Option<Id>, driver: Option<Id>, departure: Option<int>, arrival: Option<int>,
                       status: TripStatus, availableSeats: Option<int>, deleted: bool)

  datatype BookingStatus = Pending | Confirmed | Withdrawn
  datatype Booking = Booking(trip: Id, passenger: Id, seat: Option<string>, ticket: string,
                             status: BookingStatus, payment: Option<Id>)

  datatype PaymentStatus = Awaiting | Success | Failed | Refunded
  datatype Payment = Payment(payer: Id, amount: real, wallet: bool, booking: Id, status: PaymentStatus)

  datatype Db = Db(reference: Reference, trips: seq<Trip>, bookings: seq<Booking>, payments: seq<Payment>)

  datatype Error =
    | BusNotFound | DriverNotFound | RouteNotFound | ArrivalNotAfterDeparture | DriverBusy | BusBusy
    | InvalidTime | TripNotFound | IllegalTransition | TripIsOver | TripNotDeletable
    | TripCancelled | TripCompleted | TripDeparted | DuplicateBooking | SeatTaken | TripFull
    | BookingNotFound | BookingNotPending | MethodNotFound | PaymentDeclined | GatewayFailure | TicketFailure
    | NotAuthorized | AlreadyCancelled | TooLateToCancel

  /** What a caller gets back: the id of the row concerned, or the error thrown. */
  datatype Outcome = Done(id: Id) | Rejected(error: Error)

  /** The tables after a call, together with what the caller gets back. */
  datatype Reply = Reply(db: Db, outcome: Outcome)
}
