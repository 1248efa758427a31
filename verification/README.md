# Verified model of the bus-booking backend

This project models the parts of the backend that carry state, loops and arithmetic, and proves what holds of them
for every input and after every run:

- **Booking, payment, cancellation and trips** (`Tables`, `Scheduling`, `Bookings`, `World`, `Seats`, `Claims`,
  `Exclusivity`, `Ledger`, `Runs`, `Books`, `Backend`, `Buses`). One tenant's trips, bookings and payments form one state
  machine; `World.Step` has a step for each service call plus one for any change of buses, drivers, routes and
  payment methods. `Backend.Backend` is the object whose methods change the tables row by row. Each method's contract
  says which step it performs, so the statements about runs hold of the object.
- **Route order and cached route length** (`Proximity`, `Legs`, `Routes`, `RouteBook`): the nearest-neighbour loop, the
  renumbering of stations and the cached `distanceKm`.
- **Prices** (`Pricing`, `Matrix`, `Discounts`, `LiveRows`, `Clock`): rule search, the generated station matrix, peak
  windows, discount bookkeeping, default rules and trip prices.
- `Options`, `Collections`, `Sorting` and `Text` hold what these share.

`dafny verify dfyconfig.toml` checks everything.

## How the tables are modelled

A table is a sequence and a row's id is its position, so new rows get new ids and rows never disappear. Times are
milliseconds, money and distances are `real`. A service call is one atomic step. `World.World` adds to the tables what
they do not record: for each trip the seats it was created with, how many bookings `cancelTrip` took away and whether
it was ever delayed; the payments whose ticket could not be issued; and the bookings taken away by `cancelTrip`. Statements
about runs start from any state that satisfies the invariant, and so from an empty database. The
distance function is any function that satisfies `Proximity.PseudoMetric`; the payment gateway and ticket issuing are
inputs of the payment step and may do anything.

## Where the code differs from what it says or intends

- `findById` filters by passenger, but payment and cancellation hand it a tenant id. The model looks a booking up by its
  id within the tenant, which is what the callers need.
- The comment in `createTrip` asks for an active bus; the code only asks for one that is not deleted, and so does the model.
- The permission check in `cancelBooking` compares with a `userId` that bookings do not have, so any named user is
  refused (`Ledger.CancellationAccepted`).
- `checkTripCapacity` compares confirmed bookings with a counter that already excludes them, so it refuses bookings while
  seats are free. `Runs.CapacityCheckIsConservative` says exactly when, and `Books.FreeSeatRefused` gives a run that ends so.
- `cancelTrip` neither refunds nor returns seats, and a ticket failure marks the payment of a confirmed booking failed.
  `Books.BreaksBooks` says which calls put bookings and payments out of step, as a condition on the tables before the call,
  and `Books.LedgerSound` shows that there are no others and that nothing puts the books right again;
  `Books.TripCancellationBreaksBooks` and `Books.TicketFailureBreaksBooks` are runs of both kinds.
- The availability checks do not see delayed trips. `Runs.DelayDoubleBooksDriver` gives a run in which a driver ends up
  with two overlapping trips, and `Exclusivity.FullyExclusiveStep` says exactly which call breaks exclusive use and when.
- A route length of zero is never stored, so a wrong cache, which `createRoute` can leave, may stay wrong:
  `Routes.WrongCacheSurvives` gives a case and `Routes.CacheRun` says exactly when the cache is right after a run.
- `reorderStations` does not ask whose stations it renumbers. `Routes.ForeignOrderBreaks` gives an order of one route that
  leaves the cached length of another wrong. `Routes.SparingKeepsCache` says exactly which edits can do that: orders after
  which the stations of the other route travel other legs (or some leg another number of times). Orders that list none of
  its stations never do (`Routes.UnlistedSpared`).
- A matrix with a new tariff does not replace the stored one, because taken keys are skipped (`Matrix.NewTariffIgnored`).
- Dynamic pricing reads a full bus as an empty one and never loads the bus, so it assumes 50 seats.
  `Pricing.DynamicPriceBySeats` says exactly when fewer free seats lower the price, `Pricing.FullBusIsCheaper` gives a case.

## Model

| member | source | states |
|---|---|---|
| Runs.InvariantRun | src/modules/Booking/booking.service.ts:36-72 | every run of booking, payment, cancellation and trip calls keeps all table invariants at once: seat balance, no double booking, numbered tickets, exclusive use, settled and balanced payments |
| Runs.SeatConservation | src/modules/Booking/booking.service.ts:64-69 | for a trip made by createTrip, in every later run the stored counter plus active bookings plus bookings lost to cancelTrip equals the bus seats at creation; nothing is lost unless cancelTrip is applied to it; counter never negative and trip never overbooked exactly when that seat number is not negative |
| Runs.IssuedFixed | src/modules/Trip/trip.service.ts:239-263 | no later call changes the seats a trip was issued, and only cancelTrip on it loses bookings |
| Runs.CountersAgree | src/modules/Trip/trip.repository.ts:166-188 | for a trip made by createTrip, after every run without cancelTrip on it, another bus for it or other seats on its bus, the booking service's count of free seats is the stored counter plus active bookings without seat number, and the repository's is the counter plus pending bookings exactly when the bus has no negative number of seats |
| Runs.CapacityCheckIsConservative | src/modules/Booking/booking.service.ts:263-277 | with everything else in order a booking is refused as full exactly when unpaid plus twice the confirmed bookings reach the seats not lost, and refused although seats are free exactly when the stored counter is positive and no more than the confirmed bookings |
| Books.FreeSeatRefused | src/modules/Booking/booking.service.ts:263-277 | a concrete run on a bus with two seats, one of them booked and paid for: the next passenger is turned away |
| Runs.CancelUndoesBooking | src/modules/Booking/services/Cancellation.service.ts:71-80 | cancelling a fresh booking restores the trips and payments exactly and leaves one withdrawn row |
| Runs.NoDoubleBookingEver | src/modules/Booking/booking.repository.ts:139-177 | in every run a passenger, and a seat with a non-empty number, has at most one pending or confirmed booking on a trip |
| Runs.TicketsIdentifyBookings | src/modules/Booking/booking.repository.ts:217-226 | in every run, whatever the clock does, ticket numbers are pairwise distinct and lead back to their booking |
| Runs.ExclusiveUse | src/modules/Trip/trip.service.ts:64-192 | in every run two trips on the timetable that were never delayed and share a driver or bus have no moment in common |
| Runs.DelayDoubleBooksDriver | src/modules/Trip/trip.repository.ts:238-247 | a concrete run in which a delay leaves one driver with two overlapping live trips |
| Runs.TripsMoveForward | src/modules/Trip/trip.service.ts:212-277 | over every run trips only move forward: over is over, no stage is undone, deleted trips were scheduled or cancelled and stay as they were |
| Books.LedgerSound | src/modules/Booking/services/Payment.service.ts:32-104 | after every run the books agree (confirmed bookings and successful payments correspond, cancelled paid bookings are refunded) exactly when they agreed at its start and no call of it was a trip cancellation with confirmed bookings or an approved charge without ticket, each told from the tables before the call; books once broken stay broken |
| Books.BooksStep | src/modules/Booking/services/Payment.service.ts:50-86 | after any one call the books agree exactly when they did before and the call is not one of those two |
| Books.TripCancellationBreaksBooks | src/modules/Trip/trip.service.ts:250-260 | a concrete run: plan, book, pay, cancel the trip; the books disagree |
| Books.TicketFailureBreaksBooks | src/modules/Booking/services/Payment.service.ts:61-86 | a concrete run: plan, book, pay without getting a ticket; the books disagree |
| Books.LedgerWithoutTripCancellation | src/modules/Booking/services/Payment.service.ts:32-104 | in runs without cancelTrip and ticket failures, from books that agree and for any gateway outcomes, the books agree and successful payments sum to what was paid for confirmed bookings |
| Books.TakingsBalance | src/modules/Booking/services/Payment.service.ts:156-187 | after every run successful payments sum to the money held for confirmed plus for cancelled bookings, the latter nothing unless cancelTrip took bookings away |
| Books.PaymentsNotShared | src/modules/Booking/services/Payment.service.ts:127-145 | after every run no payment is pending, none is linked to two bookings and no booking is charged twice |
| Seats.SeatsStep | src/modules/Booking/services/Cancellation.service.ts:71-80 | every call keeps the seat balance of every trip |
| Seats.CancelConfirmedCounts | src/modules/Trip/trip.service.ts:250-260 | the bulk cancellation takes exactly the confirmed bookings of its trip out of the active ones and touches no other trip |
| Seats.SeatedCounterAgrees | src/modules/Booking/booking.service.ts:136-155 | BookingService.getAvailableSeats is the stored counter plus active bookings without seat number, off by exactly the seats the bus now offers more than those issued less those lost (bus without seats: by the active bookings); so when the two agree |
| Seats.ConfirmedCounterAgrees | src/modules/Trip/trip.repository.ts:166-188 | TripRepository.getAvailableSeats is the stored counter plus pending bookings, off by exactly the seats the bus now offers more than those issued less those lost, and never below 0; so when the two agree |
| Claims.BookingAccepted | src/modules/Booking/booking.service.ts:203-277 | createBooking succeeds exactly for an open trip, an unclaimed seat and passenger and a counter above the confirmed bookings; otherwise nothing changes |
| Claims.BookingRow | src/modules/Booking/booking.service.ts:50-71 | an accepted booking adds one pending row with the values asked for, takes one seat off its trip's counter and changes nothing else; the ticket text is TKT-, the last six characters of the clock, and the number of the row |
| Claims.BookingRefused | src/modules/Booking/booking.service.ts:203-261 | which error a refused booking is given: missing, cancelled, completed or departed trip, own booking, taken seat |
| Claims.ClaimsStep | src/modules/Booking/booking.service.ts:231-261 | every call keeps claims exclusive and tickets numbered by row |
| Claims.TicketsUnique | src/modules/Booking/booking.service.ts:157-187 | verifyTicket answers valid exactly for the one booking carrying the number, if it is confirmed and its trip not departed |
| Claims.VerdictOf | src/modules/Booking/booking.service.ts:157-187 | every answer of verifyTicket from the status and departure of the one booking that carries the number, unknown exactly when none does |
| Claims.TicketIdentifies | src/modules/Booking/booking.repository.ts:222-225 | a ticket text determines the row it was printed for |
| Ledger.SettledStep | src/modules/Booking/services/Payment.service.ts:89-104 | every call keeps each booking's payment in the one state its history allows |
| Ledger.BalancedStep | src/modules/Booking/services/Payment.service.ts:156-187 | every call keeps the sum of successful payments equal to the money held for bookings |
| Ledger.PaymentAttempted | src/modules/Booking/services/Payment.service.ts:32-87 | exactly when a charge is attempted; the one payment row it adds with passenger, amount, method and outcome, when the booking is confirmed and linked, which error is thrown, and that otherwise nothing changes |
| Ledger.CancellationAccepted | src/modules/Booking/services/Cancellation.service.ts:19-80 | exactly when a cancellation goes through (two hours before departure if confirmed) or which error refuses it; only the booking's status, its trip's counter and the status of its successful payment change |
| Exclusivity.ExclusiveStep | src/modules/Trip/trip.service.ts:154-189 | every call, reassignment included, keeps on-time trips that share a driver or bus apart |
| Exclusivity.FullyExclusiveStep | src/modules/Trip/trip.service.ts:219-236 | counting delayed trips in, exclusive use survives a call exactly unless it resumes a delayed trip whose driver or bus would fail the availability checks |
| Scheduling.ConflictIsOverlap | src/modules/Trip/trip.repository.ts:246-265 | on an orderly trip the three-way condition is closed-interval overlap exactly for well-formed windows, and for backwards ones touching the trip with neither end |
| Scheduling.TripAccepted | src/modules/Trip/trip.service.ts:64-145 | createTrip succeeds exactly when its rows exist, arrival follows departure and no live trip of the driver or bus overlaps; every column of the new row; which error a refusal names |
| Scheduling.ReassignmentAccepted | src/modules/Trip/trip.service.ts:147-192 | updateTrip of driver and/or bus succeeds exactly when the trip is there and each new resource exists and is free at the trip's time; which error otherwise; nothing else changes |
| Scheduling.TripCancellationAccepted | src/modules/Trip/trip.service.ts:239-263 | cancelTrip succeeds exactly for a trip not over, withdraws exactly its confirmed bookings and changes no other column of any row, neither seat counter nor payments |
| Scheduling.StatusAccepted | src/modules/Trip/trip.service.ts:212-237 | updateTripStatus succeeds exactly on a trip that is there for one of the ten pairs of statuses, and changes only that status |
| Scheduling.DeletionAccepted | src/modules/Trip/trip.service.ts:265-277 | deleteTrip succeeds exactly on a scheduled or cancelled trip that is there, and only flags it |
| Scheduling.ArrivalMeans | src/modules/Trip/utils/getTripEstimationTime.ts:124-146 | the computed arrival is none for a deleted route or unreadable duration, else departure plus duration plus two minutes a station |
| Scheduling.PlannedArrival | src/modules/Trip/utils/getTripEstimationTime.ts:124-146 | a trip without given arrival on a route with a printed duration arrives that duration plus two minutes a station after departure |
| Buses.GetAvailableBuses | src/modules/buses/buses.service.ts:310-324 | the loop returns exactly the active buses that are available, each once |
| Buses.AvailableMeansUnoccupied | src/modules/buses/buses.repository.ts:224-252 | for a proper window a bus is available exactly when it is in service and no live or delayed trip of it overlaps; asking fails exactly for a missing bus |
| Buses.AvailablePassesTripCheck | src/modules/buses/buses.service.ts:292-305 | an available bus passes createTrip's bus check, and an active bus that passes it is available exactly when no delayed trip conflicts |
| Buses.AvailableBusAccepted | src/modules/Trip/trip.service.ts:107-116 | createTrip on an available bus never fails because of the bus |
| Backend.Backend.CreateTrip | src/modules/Trip/trip.service.ts:64-145 | performs the createTrip step on the tables and keeps the invariant |
| Backend.Backend.UpdateTrip | src/modules/Trip/trip.service.ts:147-192 | performs the reassignment step and keeps the invariant |
| Backend.Backend.UpdateTripStatus | src/modules/Trip/trip.service.ts:212-237 | performs the status step and keeps the invariant |
| Backend.Backend.CancelTrip | src/modules/Trip/trip.service.ts:239-263 | performs the trip cancellation step and keeps the invariant |
| Backend.Backend.DeleteTrip | src/modules/Trip/trip.service.ts:265-277 | performs the soft deletion step and keeps the invariant |
| Backend.Backend.CreateBooking | src/modules/Booking/booking.service.ts:36-72 | performs the booking step and keeps the invariant |
| Backend.Backend.ProcessPayment | src/modules/Booking/services/Payment.service.ts:32-87 | performs the payment step, row creation, gateway outcome and catch block included, and keeps the invariant |
| Backend.Backend.Charge | src/modules/Booking/services/Payment.service.ts:50-86 | whatever the gateway and ticket issuing do, the new payment row ends successful or failed and the booking is confirmed exactly after approval |
| Backend.Backend.ProcessRefund | src/modules/Booking/services/Payment.service.ts:89-104 | changes only a successful linked payment, to refunded |
| Backend.Backend.CancelBooking | src/modules/Booking/services/Cancellation.service.ts:19-38 | performs the cancellation step and keeps the invariant |
| Proximity.OrderStationsByProximity | src/services/distance.service.ts:57-114 | the greedy loop terminates and returns the order that the following members describe |
| Proximity.FindNearest | src/services/distance.service.ts:87-106 | the inner loop finds the first of the nearest remaining stations |
| Proximity.OrderPermutes | src/services/distance.service.ts:57-114 | the order is a permutation of the stations |
| Proximity.OrderParts | src/services/distance.service.ts:60-84 | stations with both coordinates come first, led by the first of them; the others follow in original order |
| Proximity.OrderGreedy | src/services/distance.service.ts:86-110 | every next located station is at least as near to the one before as every located station after it |
| Proximity.FixedExactlyGreedy | src/services/distance.service.ts:86-110 | ordering leaves a list unchanged exactly when it is a nearest-neighbour tour |
| Proximity.OrderIdempotent | src/services/distance.service.ts:57-114 | ordering twice is ordering once |
| Proximity.CalculateTotalRouteDistance | src/services/distance.service.ts:26-50 | the loop returns the length of the way through the located stations |
| Proximity.PathGrows | src/services/distance.service.ts:35-47 | every further station adds its distance from the one before, latitude and longitude taken in that order and missing ones as 0 |
| Proximity.ZeroSpreads | src/modules/routes/services/routeHelper.service.ts:102-104 | under a pseudo-metric a way of length zero makes every way through its places, in any order, have length zero |
| Routes.CacheAgrees | src/modules/routes/services/routeHelper.service.ts:90-105 | a route with distinct numbers and a right cache keeps both in every run of added stations, manual orders and proximity orders, whatever the state of the other routes, if its numbers are kept distinct and orders of other routes leave its legs alone |
| Routes.CacheRun | src/modules/routes/services/routeHelper.service.ts:90-105 | after every run that leaves the legs of the route to its own edits, from any cache and any numbers, the cached distance is the length of the route exactly when it was so at the start or some edit stored the length on the way: an addition or order with a positive length, or a proximity order of two stations or more |
| Routes.SparingKeepsCache | src/modules/routes/services/routeMutations.service.ts:190-207 | an edit keeps a right cache right whatever the distances are exactly when it is no manual order of another route after which the stations travel other legs |
| Legs.LegsDecideLength | src/services/distance.service.ts:26-50 | two ways have the same total for all distances exactly when they travel the same legs, taken without direction, equally often |
| Routes.AddAgreesExactly | src/modules/routes/services/routeHelper.service.ts:90-105 | after adding a station the cache is right exactly when the new length is positive or the cache said 0 |
| Routes.WrongCacheSurvives | src/modules/routes/services/routeHelper.service.ts:102-104 | a concrete wrong cache that adding a station does not put right |
| Routes.NextSequenceFree | src/modules/routes/services/routeHelper.service.ts:71-85 | the default sequence number exceeds every number on the route |
| Routes.StationAdded | src/modules/routes/services/routeMutations.service.ts:162-185 | a station is added exactly to a route that exists: old rows as they were, one new row with id, route, place and the number given or one more than the greatest there (1 on an empty route), and the length stored unless it is 0 |
| Routes.OrderAccepted | src/modules/routes/services/routeMutations.service.ts:190-207 | a manual order is accepted exactly when route and stations exist; each listed station gets the last number listed for it, nothing else in any station changes, and the length is stored unless it is 0 |
| Routes.ProximityAnswers | src/modules/routes/services/routeMutations.service.ts:212-217 | a proximity order never fails and leaves a route with fewer than two stations alone |
| Routes.ProximityStored | src/modules/routes/services/routeMutations.service.ts:212-245 | after a proximity reorder of a route, its sequence numbers distinct or not, it reads back by sequence in exactly the nearest-neighbour order, numbered from 1, and its cached distance is its length |
| Routes.ProximityIdempotent | src/modules/routes/services/routeMutations.service.ts:212-245 | a second proximity reorder of any route changes no sequence number and no distance |
| Routes.ResequencedOtherRoute | src/modules/routes/services/routeMutations.service.ts:194-201 | renumbering that lists no station of a route leaves the reading of that route alone |
| Routes.ForeignOrderBreaks | src/modules/routes/services/routeMutations.service.ts:190-207 | a concrete manual order of one route that lists a station of another and leaves the cache of the other wrong |
| RouteBook.RouteBook.AddStation | src/modules/routes/services/routeMutations.service.ts:162-185 | creates the row and recalculates, as the add step says |
| RouteBook.RouteBook.ReorderStations | src/modules/routes/services/routeMutations.service.ts:190-207 | updates sequences one by one, all or none, and recalculates |
| RouteBook.RouteBook.ReorderStationsByProximity | src/modules/routes/services/routeMutations.service.ts:212-245 | orders, renumbers and stores the length, as the proximity step says |
| RouteBook.RouteBook.RecalculateRouteDistance | src/modules/routes/services/routeHelper.service.ts:90-105 | stores the length through all stations, missing coordinates read as 0, unless it is 0 |
| Pricing.CalculateTripPrice | src/modules/Pricing/utils/pricing-calculator.ts:41-72 | the loop returns the first price in rank order, passing over null prices and exceptions |
| Pricing.BestRuleWins | src/modules/Pricing/utils/pricing-calculator.ts:52-71 | the price is that of a rule greatest by priority, then creation time, among the applicable rules that give one; failure exactly when none does, and with no applicable rule its own failure |
| Pricing.FlatRatePrices | src/modules/Pricing/utils/pricing-calculator.ts:174-205 | a rule of this kind charges the first price for the trip's route, else its base price; failure exactly without either |
| Pricing.DistancePriceLimits | src/modules/Pricing/utils/pricing-calculator.ts:210-244 | a rule of this kind charges length times rate, the minimum below and the maximum above it, the maximum always if the limits are out of order; failure exactly without a length |
| Pricing.PeakPrice | src/modules/Pricing/utils/pricing-calculator.ts:321-367 | the multiplier applies exactly in the window counted round the clock |
| Pricing.PeakRulePrice | src/modules/Pricing/utils/pricing-calculator.ts:321-367 | a rule of this kind needs base price and both bounds, and multiplies exactly in the window if it has a multiplier, unreadable bounds included |
| Pricing.DynamicPrice | src/modules/Pricing/utils/pricing-calculator.ts:372-412 | a rule of this kind adds 50, 30 or 10 percent below 10, 20 or 30 free seats; none or no count reads as 50 |
| Pricing.DynamicPriceBySeats | src/modules/Pricing/utils/pricing-calculator.ts:372-412 | fewer free seats lower the price exactly when the bus is full, had between 1 and 29 free seats before and the base price is not 0; a full bus costs what one with 50 free seats costs |
| Pricing.FullBusIsCheaper | src/modules/Pricing/utils/pricing-calculator.ts:380-393 | a concrete case: at base price 100 the price falls from 150 to 100 when the last five seats are sold |
| Matrix.GenerateStationPricingMatrix | src/modules/Pricing/graphql/helpers/pricing.helpers.ts:9-42 | the nested loops list exactly the stretches from an earlier to a later station, n(n-1)/2 of them |
| Matrix.BulkCreateMember | src/modules/Pricing/index.ts:219-251 | on any table a row is added for exactly the entries whose key is not taken, and every row is kept |
| Matrix.StoredComplete | src/modules/Pricing/index.ts:219-251 | after storing a generated matrix exactly its rows are loaded if and only if the live rows were its own and no other row, deleted ones included, held the key of a missing one |
| Matrix.StoringIdle | src/modules/Pricing/index.ts:234-237 | storing changes nothing exactly when every key is taken |
| Matrix.NewTariffIgnored | src/modules/Pricing/index.ts:219-235 | after a matrix of a route is stored, storing one with another tariff changes no row |
| Matrix.MatrixPriceSymmetric | src/modules/Pricing/utils/pricing-calculator.ts:249-316 | from the stored matrix, stored for the first time or again, any two different stations cost base price plus a fixed amount per station, the same in both directions |
| Matrix.DirectPriceWins | src/modules/Pricing/utils/pricing-calculator.ts:256-277 | a price set for exactly the stretch asked for is charged before any tier |
| Matrix.FirstCover | src/modules/Pricing/utils/pricing-calculator.ts:290-297 | the sorted-tier fallback picks a tier for exactly the number of stations when there is one |
| Matrix.TierCharged | src/modules/Pricing/utils/pricing-calculator.ts:279-316 | without a direct price the least tier covering the number of stations is charged, else the greatest; failure exactly for stations off the trip or a route without prices |
| Matrix.StationsNeeded | src/modules/Pricing/utils/pricing-calculator.ts:147-150 | a station rule gives null exactly unless both stations are named |
| Matrix.LoadedMember | src/modules/Pricing/utils/pricing-calculator.ts:111-120 | which station prices are loaded with a rule |
| Discounts.UsageBookkeeping | src/modules/Pricing/index.ts:414-474 | from tables in order, fresh ones among them (`Discounts.FreshKept`), after every run usageCount is the number of use rows, never above a set limit, and no booking used a discount twice |
| Discounts.BillsAddUp | src/modules/Pricing/index.ts:457-463 | from tables in order, after every run a discounted booking shows the least amount its discount's terms allow (nothing below the minimum); final price and discount add up to its price, with the final price between 0 and the price exactly when the price is not negative |
| Discounts.DiscountAccepted | src/modules/Pricing/index.ts:414-435 | a code is accepted exactly for an active discount with that code (small letters as capitals), in its period, with uses left and not used on the booking; a refusal changes nothing |
| Discounts.DiscountWrites | src/modules/Pricing/index.ts:437-464 | what an accepted code writes: one more use counted, the least amount its terms allow and the price less it on the booking, one use row, nothing else |
| Discounts.DiscountRefused | src/modules/Pricing/index.ts:414-435 | why a code is refused |
| Discounts.PricingService.ApplyDiscountCode | src/modules/Pricing/index.ts:414-474 | makes the three writes of the transaction, or none, and keeps the bookkeeping |
| LiveRows.OneDefaultRun | src/modules/Pricing/index.ts:35-103 | after every run of creating, updating and deleting rules a tenant has at most one live default rule if it had at most one before, or else if one was named default on the way |
| LiveRows.DefaultReplaces | src/modules/Pricing/index.ts:61-96 | marking a live rule default makes it its tenant's only live default |
| LiveRows.RuleCreated | src/modules/Pricing/index.ts:35-59 | the row created and exactly which default flags are taken off |
| LiveRows.RuleUpdated | src/modules/Pricing/index.ts:61-96 | the flag set if one is given and exactly which default flags are taken off; a missing rule changes nothing |
| LiveRows.RuleDeleted | src/modules/Pricing/index.ts:98-103 | exactly this row is flagged as deleted |
| LiveRows.GetsLastSet | src/modules/Pricing/index.ts:282-341 | after every run of setting prices, from any table, reading a trip's price gives the last one set for it, or what it gave before if none was set |
| LiveRows.OnlyLastLive | src/modules/Pricing/index.ts:282-300 | after every run of setting prices, from any table, even one with several live prices for the trip, the last price set is the only live price of the trip; a trip without one keeps the live prices it had |
| LiveRows.PriceRowsKept | src/modules/Pricing/index.ts:282-300 | no price row is lost: those of the trip are flagged as deleted, others stay, and the new one follows |
| LiveRows.RuleDesk.CreatePricingRule | src/modules/Pricing/index.ts:35-59 | unsets other defaults, adds the row and keeps at most one default |
| LiveRows.RuleDesk.UpdatePricingRule | src/modules/Pricing/index.ts:61-96 | unsets other defaults, updates the row and keeps at most one default |
| LiveRows.RuleDesk.DeletePricingRule | src/modules/Pricing/index.ts:98-103 | soft-deletes the row and keeps at most one default |
| LiveRows.RuleDesk.SetPricing | src/modules/Pricing/index.ts:282-300 | leaves the new price as the only live price of its trip, the one read back, and other trips' live prices as they were |
| Clock.PeakTestsAgree | src/modules/Pricing/graphql/helpers/pricing.helpers.ts:267-288 | through printing and parsing, isTimeBetween agrees with isPeakHour for every time and every pair of window texts |
| Clock.PeakIsCircular | src/modules/Pricing/utils/pricing-calculator.ts:443-459 | the window test is circular distance in minutes of the day |
| Clock.MalformedWindow | src/modules/Pricing/utils/pricing-calculator.ts:443-454 | with a bound that is no number the test is left with the other bound |
| Clock.DurationRoundTrip | src/modules/Trip/utils/getTripEstimationTime.ts:87-103 | printing minutes as HH:MM and reading them back gives the same total, whatever the number of hours |
| Clock.SecondsRoundUp | src/modules/Trip/utils/getTripEstimationTime.ts:41-48 | HH:MM:SS is read in whole minutes, seconds rounded up |
| Clock.NoDuration | src/modules/Trip/utils/getTripEstimationTime.ts:39-48 | a missing duration counts as 0 minutes |
| Text.PaddedInjective | src/modules/Booking/booking.repository.ts:223 | zero-padded decimal printing never gives two numbers the same text |
| Text.PaddedWidth | src/modules/Booking/booking.repository.ts:223 | padding puts zeros in front up to the width and cuts nothing off |

## Left out

- Runs.ExclusiveUse: speaks of trips that were never delayed, because the code's checks overlook delayed ones; `Exclusivity.FullyExclusiveStep` covers the rest.
- Routes.CacheAgrees: sequence numbers are never null in the model, and with equal numbers on one route the database's order is unspecified, so edits must keep them distinct; `createRoute`, which takes a provided distance and raw coordinates, is not a step.
- Routes.CacheRun: stations with equal numbers on one route are read in the order of their ids, where the database leaves the order open; `Routes.CacheAgrees` covers the numbers kept distinct.
- Pricing.BestRuleWins: rules equal in priority and creation time come in the order given; the database leaves that order open.
- Pricing.CalculateTripPrice: breakdown texts and currencies are left out.
- Clock.DurationRoundTrip: `parseInt` is modelled on the leading digits only, without the white space and signs it also accepts.
- Clock.PeakTestsAgree: `Number` is modelled on digit strings (and the empty string, which is 0); exponents, hexadecimal, signs, fractions and white space, which the input validation rejects, are treated as no number.
- Discounts.DiscountAccepted: upper-casing of codes is modelled for the letters a to z.
- Interleavings of concurrent calls, and `bulkCancelBookings`, which runs read-then-write steps in parallel.
- `updateTrip` calls that set times, status, seats or the route, `updateAvailableSeats`, `updateRoute` and station edits: they overwrite the tracked state without checks.
- Other tenants: every query filters by tenant, so one tenant's rows are modelled.
- Rounding of money and distances to database columns, floating-point error, calendar and daylight-saving effects.
- Custom field values of bookings, ticket and QR files, notes, trip stations' arrival times and trip logs.
- Authentication, roles, pagination, statistics, CRUD of tenants, users and drivers, and the client extension's soft-delete rewriting.
