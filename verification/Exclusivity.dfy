/** Drivers and buses serve one trip at a time. */
module Exclusivity {
  import opened Options
  import opened Tables
  import opened Scheduling
  import opened Bookings
  import opened World
  import Seats

  lemma SeparateSymmetric(a: Trip, b: Trip)
    ensures Separate(a, b) <==> Separate(b, a)
  {
  }

  /** A trip conflicts with the window of another trip exactly when the two are not apart. */
  lemma ConflictFree(a: Trip, b: Trip)
    requires a.departure.Some? && a.arrival.Some? && a.departure.value <= a.arrival.value
    requires b.departure.Some? && b.arrival.Some? && b.departure.value <= b.arrival.value
    ensures Conflicts(a, b.departure.value, b.arrival.value) <==> !Apart(a, b)
  {
    ConflictIsOverlap(a, b.departure.value, b.arrival.value);
  }

  /** The step puts a delayed trip back in progress, which no availability check precedes. */
  predicate Resumes(db: Db, step: Step, t: Id) {
    && step == UpdateTripStatusStep(t, InProgress)
    && FindTrip(db, t).Some? && db.trips[t].status.Delayed?
  }

  /** A trip a reassignment is asked for. */
  predicate Reassigned(db: Db, step: Step, t: Id) {
    step.UpdateTripStep? && step.trip == t && Call(db, step).outcome.Done?
  }

  /**
   Except for reassigning or resuming it, no call puts a trip on the timetable, moves it or changes its
   driver or bus.
   */
  lemma Untouched(w: World, step: Step, t: Id)
    requires WellFormed(w) && t < |w.db.trips| && !Reassigned(w.db, step, t)
    ensures var db' := Next(w, step).db;
            && t < |db'.trips|
            && db'.trips[t].departure == w.db.trips[t].departure && db'.trips[t].arrival == w.db.trips[t].arrival
            && db'.trips[t].driver == w.db.trips[t].driver && db'.trips[t].bus == w.db.trips[t].bus
            && (Serving(db', t) && !Resumes(w.db, step, t) ==> Serving(w.db, t))
  {
    Seats.WellFormedStep(w, step);
    match step {
      case CreateTripStep(_, _, _, _, _, _) =>
      case UpdateTripStep(_, _, _) =>
      case UpdateTripStatusStep(_, _) =>
      case CancelTripStep(_) =>
      case DeleteTripStep(_) =>
      case CreateBookingStep(passenger, trip, seat, now) =>
        if Call(w.db, step).outcome.Done? { Seats.BookingTakesSeat(w.db, passenger, trip, seat, now); }
      case ProcessPaymentStep(_, _, _, _, _) =>
      case CancelBookingStep(_, _, _) =>
      case UpkeepStep(_) =>
    }
  }

  lemma CreatedSeparate(w: World, step: Step, i: Id)
    requires step.CreateTripStep? && WellFormed(w) && Call(w.db, step).outcome.Done? && i < |w.db.trips|
    ensures var db' := Next(w, step).db; Serving(db', i) ==> Separate(db'.trips[i], db'.trips[|w.db.trips|])
  {
    var db' := Next(w, step).db;
    var a, b := db'.trips[i], db'.trips[|w.db.trips|];
    if Serving(db', i) && (SameDriver(a, b) || SameBus(a, b)) {
      assert !Conflicts(a, b.departure.value, b.arrival.value);
      ConflictFree(a, b);
    }
  }

  lemma ReassignedSeparate(w: World, step: Step, i: Id)
    requires WellFormed(w) && step.UpdateTripStep? && Reassigned(w.db, step, step.trip)
    requires i < |w.db.trips| && i != step.trip && Separate(w.db.trips[i], w.db.trips[step.trip])
    ensures var db' := Next(w, step).db; Serving(db', i) ==> Separate(db'.trips[i], db'.trips[step.trip])
  {
    var db' := Next(w, step).db;
    var a, b, b' := w.db.trips[i], w.db.trips[step.trip], db'.trips[step.trip];
    if Serving(db', i) && (SameDriver(a, b') || SameBus(a, b')) {
      if !SameDriver(a, b) && !SameBus(a, b) {
        assert !Conflicts(a, b.departure.value, b.arrival.value);
        ConflictFree(a, b);
      }
    }
  }

  /** A pair of trips on the timetable after a call was there before, or is separate because the call checked it. */
  lemma PairStep(w: World, step: Step, i: Id, j: Id)
    requires WellFormed(w) && i < j < |Next(w, step).db.trips|
    requires !Resumes(w.db, step, i) && !Resumes(w.db, step, j)
    requires j < |w.db.trips| && Serving(w.db, i) && Serving(w.db, j) ==> Separate(w.db.trips[i], w.db.trips[j])
    ensures var db' := Next(w, step).db;
            Serving(db', i) && Serving(db', j) ==> Separate(db'.trips[i], db'.trips[j])
  {
    Seats.WellFormedStep(w, step);
    var db' := Next(w, step).db;
    if Serving(db', i) && Serving(db', j) {
      if j == |w.db.trips| {
        CreatedSeparate(w, step, i);
      } else if Reassigned(w.db, step, i) {
        SeparateSymmetric(w.db.trips[i], w.db.trips[j]);
        ReassignedSeparate(w, step, j);
        SeparateSymmetric(db'.trips[i], db'.trips[j]);
      } else if Reassigned(w.db, step, j) {
        ReassignedSeparate(w, step, i);
      } else {
        Untouched(w, step, i);
        Untouched(w, step, j);
      }
    }
  }

  /** Every call keeps drivers and buses from running two on-time trips at once. */
  lemma {:induction false} ExclusiveStep(w: World, step: Step)
    requires WellFormed(w) && Exclusive(w)
    ensures Exclusive(Next(w, step))
  {
    Seats.WellFormedStep(w, step);
    Seats.TripRowsKept(w, step);
    var w' := Next(w, step);
    forall i: nat, j: nat | i < j < |w'.db.trips| && OnTime(w', i) && OnTime(w', j)
      ensures Separate(w'.db.trips[i], w'.db.trips[j])
    {
      if i < |w.db.trips| { assert Seats.TripKept(w, w', i); }
      if j < |w.db.trips| { assert Seats.TripKept(w, w', j); }
      PairStep(w, step, i, j);
    }
  }

  /** The driver and the bus of a trip have no other trip in its time. */
  predicate ResourcesFree(db: Db, t: Id)
    requires t < |db.trips| && db.trips[t].departure.Some? && db.trips[t].arrival.Some?
  {
    var trip := db.trips[t];
    && (trip.driver.Some? ==>
          DriverAvailable(db.trips, trip.driver.value, trip.departure.value, trip.arrival.value, Some(t)))
    && (trip.bus.Some? ==> BusAvailable(db.trips, trip.bus.value, trip.departure.value, trip.arrival.value, Some(t)))
  }

  /**
   Counting delayed trips in, exclusive use survives every call but one: putting a delayed trip back in
   progress keeps it exactly when its driver and bus would pass the availability checks, which that
   call does not make.
   */
  lemma FullyExclusiveStep(w: World, step: Step)
    requires WellFormed(w) && FullyExclusive(w.db)
    ensures FullyExclusive(Next(w, step).db) <==>
            forall t: nat | t < |w.db.trips| && Resumes(w.db, step, t) :: ResourcesFree(w.db, t)
  {
    Seats.WellFormedStep(w, step);
    var db' := Next(w, step).db;
    if step.UpdateTripStatusStep? && Resumes(w.db, step, step.trip) {
      ResumeExact(w, step.trip);
    } else {
      forall i: nat, j: nat | i < j < |db'.trips| && Serving(db', i) && Serving(db', j)
        ensures Separate(db'.trips[i], db'.trips[j])
      {
        PairStep(w, step, i, j);
      }
    }
  }

  lemma ResumeExact(w: World, t: Id)
    requires WellFormed(w) && FullyExclusive(w.db) && Resumes(w.db, UpdateTripStatusStep(t, InProgress), t)
    ensures FullyExclusive(Next(w, UpdateTripStatusStep(t, InProgress)).db) <==> ResourcesFree(w.db, t)
  {
    var db, db' := w.db, Next(w, UpdateTripStatusStep(t, InProgress)).db;
    var b := db.trips[t];
    assert db'.trips == db.trips[t := b.(status := InProgress)];
    if ResourcesFree(db, t) {
      forall i: nat, j: nat | i < j < |db'.trips| && Serving(db', i) && Serving(db', j)
        ensures Separate(db'.trips[i], db'.trips[j])
      {
        if i == t || j == t {
          var other := if i == t then j else i;
          ConflictFree(db.trips[other], b);
          SeparateSymmetric(db'.trips[i], db'.trips[j]);
        }
      }
    }
    if FullyExclusive(db') {
      forall i: nat | i < |db.trips| && i != t && (SameDriver(db.trips[i], b) || SameBus(db.trips[i], b))
        ensures !Occupies(db.trips[i], b.departure.value, b.arrival.value)
      {
        if Serving(db, i) {
          SeparateSymmetric(db'.trips[i], db'.trips[t]);
          assert Separate(db'.trips[i], db'.trips[t]);
          ConflictFree(db.trips[i], b);
        }
      }
    }
  }
}
