/** The use cases as they run: one block of statements against a mutable store, the id and
    reference generators, and the payment gateway, each tied to its transaction. */
module UseCases {
  import opened Outcomes
  import opened Stations
  import opened Records
  import opened Support
  import opened Policy
  import opened Seating
  import opened Identifiers
  import opened MemoryStore
  import opened Views
  import B = Bookings
  import T = Transactions
  import I = Invariants
  import L = Ledger
  import X = ExcludeTable
  import Packing

  /** The dependencies a use case is handed. */
  class Deps {
    const store: Store
    const names: Generators
    var clock: int
    var ids: nat
    var refs: nat
    var charges: seq<T.Charge>

    constructor (store: Store, names: Generators, clock: int)
      ensures this.store == store && this.names == names && World() == T.World(store.holds, clock, 0, 0, [])
    {
      this.store, this.names := store, names;
      this.clock, ids, refs, charges := clock, 0, 0, [];
    }

    ghost function World(): T.World
      reads this, store
    {
      T.World(store.holds, clock, ids, refs, charges)
    }

    ghost predicate Uses(c: Context)
      reads store
    {
      store.trips == c.trips && names == c.names
    }

    method Advance(seconds: nat)
      modifies `clock
      ensures World() == old(World()).(clock := old(clock) + seconds)
    {
      clock := clock + seconds;
    }

    method NewId() returns (id: string)
      modifies `ids
      ensures id == names.id(old(ids)) && ids == old(ids) + 1
    {
      id := names.id(ids);
      ids := ids + 1;
    }

    method NewReference() returns (reference: string)
      modifies `refs
      ensures reference == names.reference(old(refs)) && refs == old(refs) + 1
    {
      reference := names.reference(refs);
      refs := refs + 1;
    }

    /** The caller's reference, or a generated one. */
    method NameTicket(c: Context, supplied: Option<string>) returns (reference: string)
      requires names == c.names
      modifies `refs
      ensures reference == T.NameFor(c, supplied, old(refs)) && refs == T.RefsAfter(supplied, old(refs))
    {
      if T.Supplied(supplied) {
        return supplied.value;
      }
      reference := NewReference();
    }

    /** The gateway records every charge, whatever its verdict. */
    method ChargeFare(reference: string, cents: int, accepted: bool) returns (ok: bool)
      modifies `charges
      ensures ok == accepted && charges == old(charges) + [T.Charge(reference, cents, accepted)]
    {
      charges := charges + [T.Charge(reference, cents, accepted)];
      return accepted;
    }

    method HoldSeat(c: Context, r: T.HoldRequest) returns (outcome: Outcome<Hold>)
      requires Uses(c)
      modifies this, store
      ensures Uses(c) && store.snapshot == None
      ensures (World(), outcome) == T.HoldSeat(c, old(World()), r)
    {
      var now := clock;
      store.Enter();
      if r.reference.Some? {
        var existing := store.ByReference(r.reference.value);
        if existing.Some? {
          store.Exit();
          return Ok(existing.value);
        }
      }
      var expired := store.ExpireDue(now);
      if r.trip !in store.trips {
        store.Exit();
        return Err(TripMissing);
      }
      var trip := store.trips[r.trip];
      if !ValidLeg(trip, r.leg) {
        store.Exit();
        return Err(InvalidLeg);
      }
      var seat := T.SeatOn(trip, r.seat);
      if seat.None? || seat.value.kind != Reserved {
        store.Exit();
        return Err(SeatNotBookable);
      }
      var refusal := EnforceAntiTout(c.config, r.trip, r.passenger, now, r.score);
      if refusal.Some? {
        store.Exit();
        return Err(refusal.value);
      }
      var fare := PriceLeg(c, store.holds, trip, r.leg, seat.value.travelClass);
      outcome := PlaceHold(c, r, seat.value.travelClass, fare, old(World()));
    }

    /** The anti-tout gate, in the order it looks: seat cap, velocity, abuse score. */
    method EnforceAntiTout(config: Config, trip: string, passenger: string, now: int, score: real)
      returns (refusal: Option<Error>)
      ensures refusal == GateRefusal(config, store.holds, trip, passenger, now, score)
    {
      var active := B.Select(store.holds, B.PassengerActive(trip, passenger));
      if |active| >= config.maxSeatsPerPassenger {
        return Some(SeatCapExceeded);
      }
      var recent := B.Select(store.holds, B.PassengerRecent(trip, passenger, now - config.velocityWindow));
      if |recent| >= config.maxBookingsPerWindow {
        return Some(VelocityExceeded);
      }
      if score >= config.abuseThreshold {
        return Some(AbuseSuspected);
      }
      return None;
    }

    /** Inside the hold's transaction, once nothing refuses it. */
    method PlaceHold(c: Context, r: T.HoldRequest, travelClass: TravelClass, fare: Outcome<int>, ghost w: T.World)
      returns (outcome: Outcome<Hold>)
      requires names == c.names
      requires store.snapshot == Some((w.holds, store.trips)) && World() == w.(holds := store.holds)
      modifies this, store
      ensures store.trips == old(store.trips) && store.snapshot == None
      ensures (World(), outcome) == T.PlaceHold(c, w, old(store.holds), r, travelClass, fare)
    {
      var now := clock;
      var id := NewId();
      var reference := NameTicket(c, r.reference);
      if fare.Err? {
        store.Exit();
        return Err(fare.error);
      }
      var hold := Hold(id, reference, r.trip, r.seat, r.leg, r.passenger, r.passengerName,
                       travelClass, Held, fare.value, now + c.config.holdTtl, now);
      var inserted := Book(hold);
      if inserted.Err? {
        return Err(inserted.error);
      }
      return Ok(hold);
    }

    /** The end of both booking transactions: insert, then commit, or roll everything back. */
    method Book(hold: Hold) returns (outcome: Outcome<()>)
      requires store.snapshot.Some?
      modifies store
      ensures store.snapshot == None
      ensures outcome.Ok? ==> B.AddHold(old(store.holds), hold) == Ok(store.holds) && store.trips == old(store.trips)
      ensures outcome.Err? ==> B.AddHold(old(store.holds), hold) == Err(outcome.error)
                               && (store.holds, store.trips) == old(store.snapshot).value
    {
      outcome := store.AddHold(hold);
      if outcome.Ok? {
        store.Commit();
      }
      store.Exit();
    }

    method ConfirmBooking(c: Context, id: string, accepted: bool) returns (outcome: Outcome<Hold>)
      requires Uses(c)
      modifies this, store
      ensures Uses(c) && store.snapshot == None
      ensures (World(), outcome) == T.ConfirmBooking(c, old(World()), id, accepted)
    {
      var now := clock;
      store.Enter();
      var expired := store.ExpireDue(now);
      var found := store.Get(id);
      if found.None? {
        store.Exit();
        return Err(BookingNotFound);
      }
      var hold := found.value;
      var target := Apply(hold.status, Confirm);
      if target.Err? {
        store.Exit();
        return Err(target.error);
      }
      if hold.trip !in store.trips {
        store.Exit();
        return Err(TripMissing);
      }
      var ok := ChargeFare(hold.reference, hold.fare, accepted);
      if !ok {
        store.Exit();
        return Err(PaymentDeclined);
      }
      var confirmed := store.SetStatus(id, target.value);
      store.Commit();
      store.Exit();
      return Ok(confirmed.value);
    }

    method CancelBooking(c: Context, id: string) returns (outcome: Outcome<Hold>)
      requires Uses(c)
      modifies this, store
      ensures Uses(c) && store.snapshot == None
      ensures (World(), outcome) == T.CancelBooking(old(World()), id)
    {
      store.Enter();
      var found := store.Get(id);
      if found.None? {
        store.Exit();
        return Err(BookingNotFound);
      }
      var target := Apply(found.value.status, Cancel);
      if target.Err? {
        store.Exit();
        return Err(target.error);
      }
      var cancelled := store.SetStatus(id, Cancelled);
      store.Commit();
      store.Exit();
      return Ok(cancelled.value);
    }

    method VerifyTicket(c: Context, reference: string) returns (outcome: Outcome<(T.Verdict, Hold)>)
      requires Uses(c)
      modifies this, store
      ensures Uses(c) && store.snapshot == None
      ensures (World(), outcome) == T.VerifyTicket(c, old(World()), reference)
    {
      store.Enter();
      var expired := store.ExpireDue(clock);
      var found := store.ByReference(reference);
      if found.None? {
        store.Exit();
        return Err(BookingNotFound);
      }
      if found.value.trip !in store.trips {
        store.Exit();
        return Err(TripMissing);
      }
      store.Commit();
      store.Exit();
      return Ok((T.VerdictOf(found.value.status), found.value));
    }

    method SellUnreserved(c: Context, r: T.SaleRequest) returns (outcome: Outcome<T.Sale>)
      requires Uses(c)
      modifies this, store
      ensures Uses(c) && store.snapshot == None
      ensures (World(), outcome) == T.SellUnreserved(c, old(World()), r)
    {
      var now := clock;
      store.Enter();
      if r.reference.Some? {
        var existing := store.ByReference(r.reference.value);
        if existing.Some? {
          store.Exit();
          if existing.value.trip !in store.trips {
            return Err(TripMissing);
          }
          return Ok(T.Sale(existing.value, None));
        }
      }
      var expired := store.ExpireDue(now);
      if r.trip !in store.trips {
        store.Exit();
        return Err(TripMissing);
      }
      var trip := store.trips[r.trip];
      if !ValidLeg(trip, r.leg) {
        store.Exit();
        return Err(InvalidLeg);
      }
      var refusal := EnforceAntiTout(c.config, r.trip, r.passenger, now, r.score);
      if refusal.Some? {
        store.Exit();
        return Err(refusal.value);
      }
      if T.Pool(trip, r.travelClass) == [] {
        store.Exit();
        return Err(SeatNotBookable);
      }
      var place := Allocate(c, r);
      if place.Err? {
        store.Exit();
        return Err(place.error);
      }
      var fare := PriceLeg(c, store.holds, trip, r.leg, r.travelClass);
      if fare.Err? {
        store.Exit();
        return Err(fare.error);
      }
      outcome := Settle(c, r, fare.value, place.value.0, place.value.1, old(World()));
    }

    /** The hidden seat by best fit, or standing room with its prediction, or neither. */
    method Allocate(c: Context, r: T.SaleRequest) returns (place: Outcome<(Option<string>, Option<SeatOffer>)>)
      requires Uses(c) && r.trip in c.trips
      ensures var room := T.StandingRoom(c, store.holds, r.trip, r.travelClass);
              place == if T.ChosenSeat(c, store.holds, r).None? && !room then Err(CoachFull)
                       else Ok((T.ChosenSeatId(c, store.holds, r), T.StandingOffer(c, store.holds, r)))
    {
      var pool := T.Pool(c.trips[r.trip], r.travelClass);
      var legs := T.PoolLegs(store.holds, r.trip, pool);
      var chosen := ChooseSeat(legs, r.leg);
      if chosen.Some? {
        return Ok((Some(pool[chosen.value].id), None));
      }
      if !T.StandingRoom(c, store.holds, r.trip, r.travelClass) {
        return Err(CoachFull);
      }
      var offer := PredictOne(legs, r.leg);
      return Ok((None, offer));
    }

    /** Inside the sale's transaction: name the ticket, take the money, insert, commit. */
    method Settle(c: Context, r: T.SaleRequest, fare: int, seat: Option<string>, offer: Option<SeatOffer>,
                  ghost w: T.World)
      returns (outcome: Outcome<T.Sale>)
      requires names == c.names
      requires store.snapshot == Some((w.holds, store.trips)) && World() == w.(holds := store.holds)
      modifies this, store
      ensures store.trips == old(store.trips) && store.snapshot == None
      ensures (World(), outcome) == T.Settle(c, w, old(store.holds), r, fare, seat, offer)
    {
      var now := clock;
      var reference := NameTicket(c, r.reference);
      var ok := ChargeFare(reference, fare, r.accepted);
      if !ok {
        store.Exit();
        return Err(PaymentDeclined);
      }
      var id := NewId();
      var sold := Hold(id, reference, r.trip, if seat.Some? then seat.value else "",
                       r.leg, r.passenger, r.passengerName, r.travelClass,
                       if seat.Some? then Confirmed else Standing, fare, 0, now);
      var inserted := Book(sold);
      if inserted.Err? {
        return Err(inserted.error);
      }
      return Ok(T.Sale(sold, offer));
    }

    method LegAvailability(c: Context, trip: string, leg: Leg) returns (outcome: Outcome<Availability>)
      requires Uses(c)
      modifies this, store
      ensures Uses(c) && store.snapshot == None
      ensures (World(), outcome) == T.LegAvailability(c, old(World()), trip, leg)
    {
      store.Enter();
      if trip !in store.trips {
        store.Exit();
        return Err(TripMissing);
      }
      if !ValidLeg(store.trips[trip], leg) {
        store.Exit();
        return Err(InvalidLeg);
      }
      var expired := store.ExpireDue(clock);
      var active := B.Select(store.holds, B.TripActive(trip));
      var views := SeatViews(active, store.trips[trip].seats, leg);
      store.Commit();
      store.Exit();
      return Ok(Availability(views, CountFree(views)));
    }

    method SearchTrains(c: Context, trips: seq<Trip>, originCode: string, destCode: string)
      returns (outcome: Outcome<seq<TrainOption>>)
      requires Uses(c)
      modifies this, store
      ensures Uses(c) && (old(store.snapshot) == None ==> store.snapshot == None)
      ensures (World(), outcome) == T.SearchTrains(c, old(World()), trips, originCode, destCode)
    {
      if originCode == destCode {
        return Err(InvalidLeg);
      }
      store.Enter();
      var expired := store.ExpireDue(clock);
      var options := SearchAll(c, trips, originCode, destCode);
      if options.Err? {
        store.Exit();
        return Err(options.error);
      }
      store.Commit();
      store.Exit();
      return Ok(options.value);
    }

    /** Inside the search's transaction: each train in turn. */
    method SearchAll(c: Context, trips: seq<Trip>, originCode: string, destCode: string)
      returns (outcome: Outcome<seq<TrainOption>>)
      ensures outcome == OptionsFor(c, store.holds, trips, originCode, destCode)
    {
      var options: seq<TrainOption> := [];
      ghost var offers := OffersFor(c, store.holds, trips, originCode, destCode);
      for i := 0 to |trips|
        invariant Collect(offers[..i]) == Ok(options)
      {
        assert offers[..i + 1][..i] == offers[..i];
        var option := SearchOne(c, trips[i], originCode, destCode);
        if option.Err? {
          ErrorsStay(offers, i + 1);
          return Err(option.error);
        }
        if option.value.Some? {
          options := options + [option.value.value];
        }
      }
      assert offers[..|trips|] == offers;
      return Ok(options);
    }

    /** One train's offer: classes in presentation order, those with reserved seats only. */
    method SearchOne(c: Context, trip: Trip, originCode: string, destCode: string)
      returns (outcome: Outcome<Option<TrainOption>>)
      ensures outcome == OptionFor(c, store.holds, trip, originCode, destCode)
    {
      var origin, dest := StationCalled(trip.stations, originCode), StationCalled(trip.stations, destCode);
      if origin.None? || dest.None? || origin.value.seq_no >= dest.value.seq_no {
        return Ok(None);
      }
      var leg := MakeLeg(origin.value.seq_no, dest.value.seq_no);
      if leg.Err? {
        return Err(leg.error);
      }
      if !Serves(trip.stops, leg.value) {
        return Ok(None);
      }
      var busy := BusySeats(store.holds, trip.id, leg.value);
      var classes: seq<ClassOption> := [];
      ghost var offers := ClassOffers(c, store.holds, trip, leg.value, CLASS_ORDER);
      for i := 0 to |CLASS_ORDER|
        invariant Collect(offers[..i]) == Ok(classes)
      {
        assert offers[..i + 1][..i] == offers[..i];
        if HasReserved(trip.seats, CLASS_ORDER[i]) {
          var fare := PriceLeg(c, store.holds, trip, leg.value, CLASS_ORDER[i]);
          if fare.Err? {
            ErrorsStay(offers, i + 1);
            return Err(fare.error);
          }
          var free := FreeReserved(trip.seats, CLASS_ORDER[i], busy);
          classes := classes + [ClassOption(CLASS_ORDER[i], free, fare.value)];
        }
      }
      assert offers[..|CLASS_ORDER|] == offers;
      return Ok(Some(Offer(trip, leg.value, classes)));
    }

    /** One command against the store: its transaction, and on a refusal nothing at all is left
        of it in the tables, whatever was expired or inserted inside. */
    method Perform(c: Context, command: T.Command)
      requires Uses(c) && store.snapshot == None
      modifies this, store
      ensures Uses(c) && store.snapshot == None
      ensures World() == T.Step(c, old(World()), command)
      ensures T.Refused(c, old(World()), command) ==> store.holds == old(store.holds) && store.trips == old(store.trips)
    {
      match command {
        case HoldCommand(r) =>
          I.HoldSeatElseUnchanged(c, World(), r);
          var outcome := HoldSeat(c, r);
        case SellCommand(r) =>
          I.SaleElseUnchanged(c, World(), r);
          var outcome := SellUnreserved(c, r);
        case ConfirmCommand(id, accepted) =>
          ghost var w := World();
          var outcome := ConfirmBooking(c, id, accepted);
          if outcome.Err? {
            I.ConfirmElseUnchanged(c, w, id, accepted);
          }
        case CancelCommand(id) =>
          var outcome := CancelBooking(c, id);
        case VerifyCommand(reference) =>
          var outcome := VerifyTicket(c, reference);
        case AvailabilityCommand(trip, leg) =>
          var outcome := LegAvailability(c, trip, leg);
        case SearchCommand(trips, originCode, destCode) =>
          var outcome := SearchTrains(c, trips, originCode, destCode);
        case TickCommand(seconds) =>
          Advance(seconds);
      }
    }

    /** Any run of commands against a fresh store: the store is always in the run's state, so it
        never double-books, never exceeds a limit, always satisfies the table's constraint, and
        the money taken is that of the bookings ever paid. */
    method PerformAll(c: Context, commands: seq<T.Command>)
      requires Uses(c) && store.snapshot == None && World() == T.Fresh(clock)
      modifies this, store
      ensures Uses(c) && store.snapshot == None
      ensures World() == T.Run(c, old(clock), commands)
      ensures WellFormed(c) ==>
                && I.Sound(c, World())
                && I.WithinLimits(c, store.holds)
                && X.Satisfies(X.RowsOf(store.holds))
                && L.Balanced(store.holds, charges, L.EverPaid(c, old(clock), commands))
    {
      for i := 0 to |commands|
        invariant Uses(c) && store.snapshot == None
        invariant World() == T.Run(c, old(clock), commands[..i])
      {
        assert commands[..i + 1][..i] == commands[..i];
        Perform(c, commands[i]);
      }
      assert commands[..|commands|] == commands;
      if WellFormed(c) {
        I.RunsAreSound(c, old(clock), commands);
        I.RunsStayWithinLimits(c, old(clock), commands);
        X.TableOfSafeStore(store.holds);
        L.BooksAlwaysBalance(c, old(clock), commands);
      }
    }

    /** Capacity unlocked by segment resale. Expires nothing and commits nothing. */
    method ImpactReport(c: Context, trip: string) returns (outcome: Outcome<Views.ImpactReport>)
      requires Uses(c)
      modifies store
      ensures Uses(c) && store.snapshot == None && World() == old(World())
      ensures outcome == if trip !in c.trips then Err(TripMissing)
                         else Impact(B.Select(store.holds, B.TripActive(trip)), c.trips[trip].stations)
    {
      store.Enter();
      if trip !in store.trips {
        store.Exit();
        return Err(TripMissing);
      }
      var stations := store.trips[trip].stations;
      var active := B.Select(store.holds, B.TripActive(trip));
      var legs := B.LegsOf(active);
      store.Exit();
      if stations == [] {
        return Err(BadConfig);
      }
      var routeKm := RouteKm(stations);
      var used := Packing.MinSeats(legs);
      var km := KmIndex(stations);
      if exists l :: l in legs && (l.origin !in km || l.dest !in km) {
        OffLineLegs(active, stations);
        return Err(LookupFailed);
      }
      OffLineLegs(active, stations);
      return Ok(Views.ImpactReport.ImpactReport(|legs|, used, ImpactSeatKm(legs, km, routeKm)));
    }
  }

  /** The prediction for a queue of one. */
  method PredictOne(seats: seq<seq<Leg>>, leg: Leg) returns (offer: Option<SeatOffer>)
    ensures offer == OfferFor(seats, leg)
  {
    var offers := PredictStandingSeats(seats, [leg]);
    FirstInQueue(seats, leg, offers);
    BestOfferIsUnique(seats, leg, offers[0], OfferFor(seats, leg));
    return offers[0];
  }
}
