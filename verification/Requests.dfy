/** Exactly when each request succeeds, and with which refusal it fails otherwise. */
module Requests {
  import opened Outcomes
  import opened Stations
  import opened Records
  import opened Bookings
  import opened Policy
  import opened Support
  import opened Seating
  import opened Depth
  import opened Views
  import opened Transactions
  import opened Invariants

  /** A held or confirmed booking of the seat is on board over part of the leg. */
  predicate Blocked(due: seq<Hold>, trip: string, seat: string, leg: Leg) {
    exists h :: h in due && h.trip == trip && h.seat == seat && (h.status == Held || h.status == Confirmed)
                && h.leg.origin < leg.dest && leg.origin < h.leg.dest
  }

  lemma BlockedMeansNotFree(due: seq<Hold>, trip: string, pool: seq<Seat>, i: nat, leg: Leg)
    requires i < |pool|
    ensures FreeOver(PoolLegs(due, trip, pool)[i], leg) <==> !Blocked(due, trip, pool[i].id, leg)
  {
    var found := Select(due, SeatActive(trip, pool[i].id));
    var legs := PoolLegs(due, trip, pool)[i];
    forall h | h in found ensures h.leg in legs {
      var k :| 0 <= k < |found| && found[k] == h;
      assert legs[k] == h.leg;
    }
    forall l | l in legs ensures exists h :: h in found && h.leg == l {
      var k :| 0 <= k < |legs| && legs[k] == l;
      assert found[k] in found;
    }
  }

  /** The requested reference is one nobody has used. */
  predicate NewReference(holds: seq<Hold>, reference: Option<string>) {
    reference.Some? ==> forall h :: h in holds ==> h.reference != reference.value
  }

  /** The name a booking gets: the caller's, unless it is missing or empty. */
  function GivenName(c: Context, reference: Option<string>, refs: nat): string {
    if reference == None || reference == Some("") then c.names.reference(refs) else reference.value
  }

  /** A new hold is judged by its trip, its leg, its seat, the gate, the price and the table, in
      this order: the first that stands in the way gives the error. */
  lemma HoldRefusals(c: Context, w: World, r: HoldRequest)
    requires WellFormed(c) && Sound(c, w) && NewReference(w.holds, r.reference)
    ensures r.trip !in c.trips ==> HoldSeat(c, w, r).1 == Err(TripMissing)
    ensures r.trip in c.trips && !ValidLeg(c.trips[r.trip], r.leg) ==> HoldSeat(c, w, r).1 == Err(InvalidLeg)
    ensures r.trip in c.trips && ValidLeg(c.trips[r.trip], r.leg) ==>
              var trip, due, outcome := c.trips[r.trip], ExpireDue(w.holds, w.clock), HoldSeat(c, w, r).1;
              var gate := GateRefusal(c.config, due, r.trip, r.passenger, w.clock, r.score);
              && (!(exists i :: FirstNamed(trip.seats, r.seat, i) && trip.seats[i].kind == Reserved) ==>
                    outcome == Err(SeatNotBookable))
              && (forall i :: FirstNamed(trip.seats, r.seat, i) && trip.seats[i].kind == Reserved ==>
                    var fare := PriceLeg(c, due, trip, r.leg, trip.seats[i].travelClass);
                    && (gate.Some? ==> outcome == Err(gate.value))
                    && (gate.None? && fare.Err? ==> outcome == Err(fare.error))
                    && (gate.None? && fare.Ok? && Blocked(due, r.trip, r.seat, r.leg) ==> outcome == Err(Overlap))
                    && (gate.None? && fare.Ok? && !Blocked(due, r.trip, r.seat, r.leg) ==> outcome.Ok?))
  {
    if r.trip in c.trips && ValidLeg(c.trips[r.trip], r.leg) {
      var trip, due := c.trips[r.trip], ExpireDue(w.holds, w.clock);
      FreshIdNotStored(c, w);
      forall i | FirstNamed(trip.seats, r.seat, i) ensures SeatOn(trip, r.seat) == Some(trip.seats[i]) {
        FirstNamedIsFound(trip, r.seat, i);
      }
      if SeatOn(trip, r.seat).Some? {
        var travelClass := SeatOn(trip, r.seat).value.travelClass;
        var fare := PriceLeg(c, due, trip, r.leg, travelClass);
        if fare.Ok? {
          FreshIsBlockedLikeAnyone(due, HoldDraft(c, w, r, travelClass, fare.value));
        }
      }
    }
  }

  /** A refused hold leaves the world as it was, except that the names drawn for a booking that
      passed every check stay drawn when the price or the table then refuses it. */
  lemma HoldRefusedLeaves(c: Context, w: World, r: HoldRequest)
    requires NewReference(w.holds, r.reference) && HoldSeat(c, w, r).1.Err?
    ensures var due, w' := ExpireDue(w.holds, w.clock), HoldSeat(c, w, r).0;
            w' == if r.trip in c.trips && ValidLeg(c.trips[r.trip], r.leg)
                     && (exists i :: FirstNamed(c.trips[r.trip].seats, r.seat, i)
                                     && c.trips[r.trip].seats[i].kind == Reserved)
                     && GateRefusal(c.config, due, r.trip, r.passenger, w.clock, r.score).None?
                  then w.(ids := w.ids + 1,
                          refs := if r.reference == None || r.reference == Some("") then w.refs + 1 else w.refs)
                  else w
  {
    var due := ExpireDue(w.holds, w.clock);
    if r.trip in c.trips {
      var trip := c.trips[r.trip];
      forall i | FirstNamed(trip.seats, r.seat, i) ensures SeatOn(trip, r.seat) == Some(trip.seats[i]) {
        FirstNamedIsFound(trip, r.seat, i);
      }
    }
    if HoldRefusal(c, due, w.clock, r).None? {
      var travelClass := SeatOn(c.trips[r.trip], r.seat).value.travelClass;
      var fare := PriceLeg(c, due, c.trips[r.trip], r.leg, travelClass);
      RefusedPlacementLeaves(c, w, due, r, travelClass, fare);
    }
  }

  lemma RefusedPlacementLeaves(c: Context, w: World, due: seq<Hold>, r: HoldRequest, travelClass: TravelClass,
                               fare: Outcome<int>)
    requires PlaceHold(c, w, due, r, travelClass, fare).1.Err?
    ensures PlaceHold(c, w, due, r, travelClass, fare).0
            == w.(ids := w.ids + 1,
                  refs := if r.reference == None || r.reference == Some("") then w.refs + 1 else w.refs)
  {
  }

  lemma FirstNamedIsFound(trip: Trip, id: string, i: int)
    requires FirstNamed(trip.seats, id, i)
    ensures SeatOn(trip, id) == Some(trip.seats[i])
  {
    assert trip.seats[i] in trip.seats && trip.seats[i].id == id;
    assert trip.seats[i].id in SeatIds(trip);
    var j :| FirstNamed(trip.seats, id, j) && SeatOn(trip, id).value == trip.seats[j];
    FirstNamedIsOne(trip.seats, id, i, j);
  }

  lemma FirstNamedIsOne(seats: seq<Seat>, id: string, i: int, j: int)
    requires FirstNamed(seats, id, i) && FirstNamed(seats, id, j)
    ensures i == j
  {
  }

  /** A hold that is placed leaves just this record at the end of the unexpired table, and draws
      one id, and one reference if the caller gave none; it charges nothing. */
  lemma HoldLeaves(c: Context, w: World, r: HoldRequest, i: int)
    requires WellFormed(c) && Sound(c, w) && HoldSucceeds(c, w, r)
    requires r.trip in c.trips && FirstNamed(c.trips[r.trip].seats, r.seat, i)
    ensures ValidLeg(c.trips[r.trip], r.leg)
    ensures var (w', outcome) := HoldSeat(c, w, r);
            var due, trip := ExpireDue(w.holds, w.clock), c.trips[r.trip];
            var fare := PriceLeg(c, due, trip, r.leg, trip.seats[i].travelClass);
            && fare.Ok?
            && outcome.value == Hold(c.names.id(w.ids), GivenName(c, r.reference, w.refs), r.trip, r.seat, r.leg,
                                     r.passenger, r.passengerName, trip.seats[i].travelClass, Held, fare.value,
                                     w.clock + c.config.holdTtl, w.clock)
            && w' == World(due + [outcome.value], w.clock, w.ids + 1,
                           if r.reference == None || r.reference == Some("") then w.refs + 1 else w.refs, w.charges)
  {
    FirstNamedIsFound(c.trips[r.trip], r.seat, i);
    HoldSeatShape(c, w, r);
    HoldSeatInserts(c, w, r);
    HoldIsPriced(c, w, r);
  }

  lemma HoldIsPriced(c: Context, w: World, r: HoldRequest)
    requires HoldSucceeds(c, w, r)
    ensures r.trip in c.trips && ValidLeg(c.trips[r.trip], r.leg) && SeatOn(c.trips[r.trip], r.seat).Some?
    ensures var travelClass := SeatOn(c.trips[r.trip], r.seat).value.travelClass;
            && HoldSeat(c, w, r).1.value.travelClass == travelClass
            && PriceLeg(c, ExpireDue(w.holds, w.clock), c.trips[r.trip], r.leg, travelClass)
               == Ok(HoldSeat(c, w, r).1.value.fare)
  {
  }

  /** A hold is placed iff its reference is new, trip and leg exist, the seat is a reserved seat
      of the trip that no unexpired active booking overlaps, the gate passes and the leg has a
      price; and then the record is what was asked for, at that price, until its deadline. */
  lemma HoldSucceedsIff(c: Context, w: World, r: HoldRequest)
    requires WellFormed(c) && Sound(c, w)
    ensures var due := ExpireDue(w.holds, w.clock);
            HoldSucceeds(c, w, r) <==>
              && Replayed(w.holds, r.reference).None?
              && r.trip in c.trips && ValidLeg(c.trips[r.trip], r.leg)
              && SeatOn(c.trips[r.trip], r.seat).Some? && SeatOn(c.trips[r.trip], r.seat).value.kind == Reserved
              && GateRefusal(c.config, due, r.trip, r.passenger, w.clock, r.score).None?
              && PriceLeg(c, due, c.trips[r.trip], r.leg, SeatOn(c.trips[r.trip], r.seat).value.travelClass).Ok?
              && !Blocked(due, r.trip, r.seat, r.leg)
    ensures HoldSucceeds(c, w, r) ==>
              var hold := HoldSeat(c, w, r).1.value;
              && hold.trip == r.trip && hold.seat == r.seat && hold.leg == r.leg
              && hold.passenger == r.passenger && hold.passengerName == r.passengerName
              && (Supplied(r.reference) ==> Some(hold.reference) == r.reference)
              && hold.status == Held && hold.createdAt == w.clock && hold.heldUntil == w.clock + c.config.holdTtl
              && PriceLeg(c, ExpireDue(w.holds, w.clock), c.trips[r.trip], r.leg, hold.travelClass) == Ok(hold.fare)
  {
    FreshIdNotStored(c, w);
    var due := ExpireDue(w.holds, w.clock);
    if HoldRefusal(c, due, w.clock, r).None? {
      var travelClass := SeatOn(c.trips[r.trip], r.seat).value.travelClass;
      var fare := PriceLeg(c, due, c.trips[r.trip], r.leg, travelClass);
      if fare.Ok? {
        FreshIsBlockedLikeAnyone(due, HoldDraft(c, w, r, travelClass, fare.value));
      }
    }
  }

  lemma FreshIsBlockedLikeAnyone(due: seq<Hold>, h: Hold)
    requires Lookup(due, h.id).None?
    ensures AddHold(due, h).Ok? <==> !Blocked(due, h.trip, h.seat, h.leg)
  {
    forall e | e in due ensures Blocks(e, h) <==> Matches(SeatActive(h.trip, h.seat), e) && h.leg.Overlaps(e.leg) {
      assert e.id != h.id;
    }
  }

  /** Some seat of the unreserved pool is free over the leg, or one more may stand. */
  ghost predicate RoomFor(c: Context, due: seq<Hold>, r: SaleRequest)
    requires r.trip in c.trips
  {
    || (exists s :: s in Pool(c.trips[r.trip], r.travelClass) && !Blocked(due, r.trip, s.id, r.leg))
    || |StandingOn(due, r.trip, r.travelClass)| < c.config.standingCapacity
  }

  lemma ChosenIffSomeSeatFree(c: Context, due: seq<Hold>, r: SaleRequest)
    requires r.trip in c.trips
    ensures ChosenSeat(c, due, r).Some? <==>
            exists s :: s in Pool(c.trips[r.trip], r.travelClass) && !Blocked(due, r.trip, s.id, r.leg)
  {
    var pool := Pool(c.trips[r.trip], r.travelClass);
    forall i | 0 <= i < |pool|
      ensures FreeOver(PoolLegs(due, r.trip, pool)[i], r.leg) <==> !Blocked(due, r.trip, pool[i].id, r.leg)
    {
      BlockedMeansNotFree(due, r.trip, pool, i, r.leg);
    }
    if ChosenSeat(c, due, r).Some? {
      assert pool[ChosenSeat(c, due, r).value] in pool;
    }
  }

  lemma NoObstacleIff(c: Context, due: seq<Hold>, now: int, r: SaleRequest)
    ensures SaleObstacle(c, due, now, r).None? <==>
              && r.trip in c.trips && ValidLeg(c.trips[r.trip], r.leg)
              && GateRefusal(c.config, due, r.trip, r.passenger, now, r.score).None?
              && Pool(c.trips[r.trip], r.travelClass) != []
              && RoomFor(c, due, r)
  {
    if SaleRefusal(c, due, now, r).None? {
      ChosenIffSomeSeatFree(c, due, r);
      StandingIsSelected(due, r.trip, r.travelClass);
    }
  }

  lemma SettlesIffAccepted(c: Context, w: World, due: seq<Hold>, r: SaleRequest, fare: int,
                           seat: Option<string>, offer: Option<SeatOffer>)
    requires AddHold(due, SaleDraft(c, w, r, seat, fare)).Ok?
    ensures Settle(c, w, due, r, fare, seat, offer).1.Ok? <==> r.accepted
  {
  }

  /** A counter sale succeeds iff its reference is new, trip, leg and an unreserved pool exist,
      the gate passes, some pool seat is free or there is standing room, the leg has a price
      and the money is accepted. */
  lemma SaleSucceedsIff(c: Context, w: World, r: SaleRequest)
    requires WellFormed(c) && Sound(c, w)
    ensures var due := ExpireDue(w.holds, w.clock);
            SaleSucceeds(c, w, r) <==>
              && Replayed(w.holds, r.reference).None?
              && r.trip in c.trips && ValidLeg(c.trips[r.trip], r.leg)
              && GateRefusal(c.config, due, r.trip, r.passenger, w.clock, r.score).None?
              && Pool(c.trips[r.trip], r.travelClass) != []
              && RoomFor(c, due, r)
              && PriceLeg(c, due, c.trips[r.trip], r.leg, r.travelClass).Ok?
              && r.accepted
  {
    var due := ExpireDue(w.holds, w.clock);
    NoObstacleIff(c, due, w.clock, r);
    if Replayed(w.holds, r.reference).None? && SaleObstacle(c, due, w.clock, r).None? {
      var fare := PriceLeg(c, due, c.trips[r.trip], r.leg, r.travelClass);
      if fare.Ok? {
        SaleInsertSucceeds(c, w, r, fare.value);
        SettlesIffAccepted(c, w, due, r, fare.value, ChosenSeatId(c, due, r), StandingOffer(c, due, r));
      }
    }
  }

  /** A new sale is judged by its trip, its leg, the gate, the pool, the room, the price and the
      payment, in this order: the first that stands in the way gives the error. */
  lemma SaleRefusals(c: Context, w: World, r: SaleRequest)
    requires WellFormed(c) && Sound(c, w) && NewReference(w.holds, r.reference)
    ensures r.trip !in c.trips ==> SellUnreserved(c, w, r).1 == Err(TripMissing)
    ensures r.trip in c.trips && !ValidLeg(c.trips[r.trip], r.leg) ==> SellUnreserved(c, w, r).1 == Err(InvalidLeg)
    ensures r.trip in c.trips && ValidLeg(c.trips[r.trip], r.leg) ==>
              var trip, due, outcome := c.trips[r.trip], ExpireDue(w.holds, w.clock), SellUnreserved(c, w, r).1;
              var gate := GateRefusal(c.config, due, r.trip, r.passenger, w.clock, r.score);
              var fare := PriceLeg(c, due, trip, r.leg, r.travelClass);
              && (gate.Some? ==> outcome == Err(gate.value))
              && (gate.None? ==>
                    && (!HasUnreserved(trip, r.travelClass) ==> outcome == Err(SeatNotBookable))
                    && (HasUnreserved(trip, r.travelClass) ==>
                          && (!RoomFor(c, due, r) ==> outcome == Err(CoachFull))
                          && (RoomFor(c, due, r) && fare.Err? ==> outcome == Err(fare.error))
                          && (RoomFor(c, due, r) && fare.Ok? && !r.accepted ==> outcome == Err(PaymentDeclined))
                          && (RoomFor(c, due, r) && fare.Ok? && r.accepted ==> outcome.Ok?)))
  {
    var due := ExpireDue(w.holds, w.clock);
    SaleSucceedsIff(c, w, r);
    SaleObstacles(c, due, w.clock, r);
    if SaleObstacle(c, due, w.clock, r).None? {
      var fare := PriceLeg(c, due, c.trips[r.trip], r.leg, r.travelClass);
      if fare.Ok? && !r.accepted {
        DeclinedMeansDeclined(c, w, due, r, fare.value, ChosenSeatId(c, due, r), StandingOffer(c, due, r));
      }
    }
  }

  /** A refused sale leaves the world as it was, except that a declined payment stays on record,
      under the ticket's name and for the quoted fare. */
  lemma SaleRefusedLeaves(c: Context, w: World, r: SaleRequest)
    requires WellFormed(c) && Sound(c, w) && NewReference(w.holds, r.reference)
    requires SellUnreserved(c, w, r).1.Err?
    ensures var due, w' := ExpireDue(w.holds, w.clock), SellUnreserved(c, w, r).0;
            w' == if r.trip in c.trips && ValidLeg(c.trips[r.trip], r.leg)
                     && GateRefusal(c.config, due, r.trip, r.passenger, w.clock, r.score).None?
                     && HasUnreserved(c.trips[r.trip], r.travelClass) && RoomFor(c, due, r)
                     && PriceLeg(c, due, c.trips[r.trip], r.leg, r.travelClass).Ok?
                  then w.(refs := if r.reference == None || r.reference == Some("") then w.refs + 1 else w.refs,
                          charges := w.charges
                                     + [Charge(GivenName(c, r.reference, w.refs),
                                               PriceLeg(c, due, c.trips[r.trip], r.leg, r.travelClass).value, false)])
                  else w
  {
    var due := ExpireDue(w.holds, w.clock);
    SaleObstacles(c, due, w.clock, r);
    SaleSucceedsIff(c, w, r);
    if r.trip in c.trips {
      PoolIsThere(c.trips[r.trip], r.travelClass);
    }
    if SaleObstacle(c, due, w.clock, r).None? {
      var fare := PriceLeg(c, due, c.trips[r.trip], r.leg, r.travelClass);
      if fare.Ok? {
        DeclinedMeansDeclined(c, w, due, r, fare.value, ChosenSeatId(c, due, r), StandingOffer(c, due, r));
      }
    }
  }

  predicate HasUnreserved(trip: Trip, travelClass: TravelClass) {
    exists s :: s in trip.seats && s.kind == Unreserved && s.travelClass == travelClass
  }

  lemma DeclinedMeansDeclined(c: Context, w: World, due: seq<Hold>, r: SaleRequest, fare: int,
                              seat: Option<string>, offer: Option<SeatOffer>)
    requires !r.accepted
    ensures Settle(c, w, due, r, fare, seat, offer).1 == Err(PaymentDeclined)
    ensures Settle(c, w, due, r, fare, seat, offer).0
            == w.(refs := if r.reference == None || r.reference == Some("") then w.refs + 1 else w.refs,
                  charges := w.charges + [Charge(GivenName(c, r.reference, w.refs), fare, false)])
  {
  }

  lemma SaleObstacles(c: Context, due: seq<Hold>, now: int, r: SaleRequest)
    ensures var obstacle := SaleObstacle(c, due, now, r);
            && (r.trip !in c.trips ==> obstacle == Some(TripMissing))
            && (r.trip in c.trips && !ValidLeg(c.trips[r.trip], r.leg) ==> obstacle == Some(InvalidLeg))
            && (r.trip in c.trips && ValidLeg(c.trips[r.trip], r.leg) ==>
                  var gate := GateRefusal(c.config, due, r.trip, r.passenger, now, r.score);
                  && (gate.Some? ==> obstacle == gate)
                  && (gate.None? && !HasUnreserved(c.trips[r.trip], r.travelClass) ==>
                        obstacle == Some(SeatNotBookable))
                  && (gate.None? && HasUnreserved(c.trips[r.trip], r.travelClass) ==>
                        obstacle == if RoomFor(c, due, r) then None else Some(CoachFull)))
  {
    NoObstacleIff(c, due, now, r);
    if r.trip in c.trips {
      PoolIsThere(c.trips[r.trip], r.travelClass);
    }
  }

  lemma PoolIsThere(trip: Trip, travelClass: TravelClass)
    ensures Pool(trip, travelClass) != [] <==> HasUnreserved(trip, travelClass)
  {
    if Pool(trip, travelClass) != [] {
      assert Pool(trip, travelClass)[0] in Pool(trip, travelClass);
    }
  }

  /** The pool lists the trip's unreserved seats of the class in the trip's own order: of a train
      in two parts, those of the first part come first. */
  lemma {:induction false} PoolKeepsOrder(a: seq<Seat>, b: seq<Seat>, travelClass: TravelClass)
    ensures UnreservedIn(a + b, travelClass) == UnreservedIn(a, travelClass) + UnreservedIn(b, travelClass)
    ensures |UnreservedIn(b, travelClass)| <= |b|
  {
    if b == [] {
      assert a + b == a;
    } else {
      var before, last := b[..|b| - 1], b[|b| - 1];
      assert (a + b)[..|a + b| - 1] == a + before;
      PoolKeepsOrder(a, before, travelClass);
    }
  }

  /** The hops of the line on which somebody has the seat booked. */
  ghost function HopsBooked(due: seq<Hold>, trip: string, seat: string): set<int> {
    set p: int | 0 <= p < Horizon(LegsOf(due)) && BookedOver(due, trip, seat, p)
  }

  predicate BookedOver(due: seq<Hold>, trip: string, seat: string, p: int) {
    exists h :: h in due && h.trip == trip && h.seat == seat && (h.status == Held || h.status == Confirmed)
                && h.leg.origin <= p < h.leg.dest
  }

  lemma TakenIsBooked(due: seq<Hold>, trip: string, seat: string, p: int)
    requires Taken(LegsOf(Select(due, SeatActive(trip, seat))), p)
    ensures BookedOver(due, trip, seat, p)
  {
    var found := Select(due, SeatActive(trip, seat));
    var l :| l in LegsOf(found) && l.origin <= p < l.dest;
    var k :| 0 <= k < |found| && LegsOf(found)[k] == l;
    assert found[k] in found;
  }

  lemma BookedIsTaken(due: seq<Hold>, trip: string, seat: string, p: int)
    requires BookedOver(due, trip, seat, p)
    ensures Taken(LegsOf(Select(due, SeatActive(trip, seat))), p) && 0 <= p < Horizon(LegsOf(due))
  {
    var found := Select(due, SeatActive(trip, seat));
    var h :| h in due && h.trip == trip && h.seat == seat && (h.status == Held || h.status == Confirmed)
             && h.leg.origin <= p < h.leg.dest;
    assert Matches(SeatActive(trip, seat), h) && h in found;
    LegIsListed(found, h);
    LegIsListed(due, h);
  }

  lemma LegIsListed(holds: seq<Hold>, h: Hold)
    requires h in holds
    ensures h.leg in LegsOf(holds)
  {
    var k :| 0 <= k < |holds| && holds[k] == h;
    assert LegsOf(holds)[k] == h.leg;
  }

  lemma HopsBookedAreTaken(due: seq<Hold>, trip: string, seat: string)
    ensures HopsTaken(LegsOf(Select(due, SeatActive(trip, seat)))) == HopsBooked(due, trip, seat)
  {
    var legs := LegsOf(Select(due, SeatActive(trip, seat)));
    forall p | Taken(legs, p) ensures BookedOver(due, trip, seat, p) {
      TakenIsBooked(due, trip, seat, p);
    }
    forall p | BookedOver(due, trip, seat, p) ensures Taken(legs, p) && 0 <= p < Horizon(LegsOf(due)) {
      BookedIsTaken(due, trip, seat, p);
    }
  }

  lemma SeatLegsApart(due: seq<Hold>, trip: string, seat: string)
    requires NoDoubleBooking(due)
    ensures NobodyShares(LegsOf(Select(due, SeatActive(trip, seat))))
  {
    var found := Select(due, SeatActive(trip, seat));
    SelectionKeepsApart(due, SeatActive(trip, seat));
    forall i, j | 0 <= i < j < |found|
      ensures found[i].leg.dest <= found[j].leg.origin || found[j].leg.dest <= found[i].leg.origin
    {
      assert found[i] in found && found[j] in found && !Conflict(found[i], found[j]);
    }
  }

  /** Of the pool's unblocked seats, the k-th is the first of those most booked. */
  ghost predicate FullestUnblocked(due: seq<Hold>, trip: string, pool: seq<Seat>, leg: Leg, k: nat) {
    && k < |pool| && !Blocked(due, trip, pool[k].id, leg)
    && forall i :: 0 <= i < |pool| && !Blocked(due, trip, pool[i].id, leg) ==>
         |HopsBooked(due, trip, pool[i].id)| < |HopsBooked(due, trip, pool[k].id)|
         || (|HopsBooked(due, trip, pool[i].id)| == |HopsBooked(due, trip, pool[k].id)| && k <= i)
  }

  lemma ChosenIsFullest(c: Context, due: seq<Hold>, r: SaleRequest)
    requires r.trip in c.trips && NoDoubleBooking(due) && ChosenSeat(c, due, r).Some?
    ensures FullestUnblocked(due, r.trip, Pool(c.trips[r.trip], r.travelClass), r.leg, ChosenSeat(c, due, r).value)
  {
    var pool := Pool(c.trips[r.trip], r.travelClass);
    var legs, k := PoolLegs(due, r.trip, pool), ChosenSeat(c, due, r).value;
    forall i | 0 <= i < |pool|
      ensures NobodyShares(legs[i])
      ensures Clashes(legs[i], r.leg) <==> Blocked(due, r.trip, pool[i].id, r.leg)
      ensures HopsTaken(legs[i]) == HopsBooked(due, r.trip, pool[i].id)
    {
      SeatLegsApart(due, r.trip, pool[i].id);
      BlockedMeansNotFree(due, r.trip, pool, i, r.leg);
      assert FreeOver(legs[i], r.leg) <==> !Clashes(legs[i], r.leg);
      HopsBookedAreTaken(due, r.trip, pool[i].id);
    }
    BestFitIsFullest(legs, r.leg, Some(k));
  }

  /** A sale leaves just this ticket at the end of the unexpired table: confirmed on the fullest
      unblocked pool seat if there is one, else standing without a seat; paid in full under its
      own name at the quoted fare; and it draws one id, and one reference if none was given. */
  lemma SaleLeaves(c: Context, w: World, r: SaleRequest) returns (seat: Option<nat>)
    requires WellFormed(c) && Sound(c, w) && SaleSucceeds(c, w, r)
    ensures r.trip in c.trips && ValidLeg(c.trips[r.trip], r.leg)
    ensures var (w', outcome) := SellUnreserved(c, w, r);
            var due, pool := ExpireDue(w.holds, w.clock), Pool(c.trips[r.trip], r.travelClass);
            var fare := PriceLeg(c, due, c.trips[r.trip], r.leg, r.travelClass);
            && fare.Ok?
            && (seat.None? <==> forall s :: s in pool ==> Blocked(due, r.trip, s.id, r.leg))
            && (seat.Some? ==> FullestUnblocked(due, r.trip, pool, r.leg, seat.value))
            && outcome.value.ticket == Hold(c.names.id(w.ids), GivenName(c, r.reference, w.refs), r.trip,
                                            if seat.Some? then pool[seat.value].id else "", r.leg, r.passenger,
                                            r.passengerName, r.travelClass,
                                            if seat.Some? then Confirmed else Standing, fare.value, 0, w.clock)
            && w' == World(due + [outcome.value.ticket], w.clock, w.ids + 1,
                           if r.reference == None || r.reference == Some("") then w.refs + 1 else w.refs,
                           w.charges + [Charge(outcome.value.ticket.reference, fare.value, true)])
  {
    var due := ExpireDue(w.holds, w.clock);
    SaleIsSettled(c, w, r);
    var fare := PriceLeg(c, due, c.trips[r.trip], r.leg, r.travelClass).value;
    SettleShape(c, w, due, r, fare, ChosenSeatId(c, due, r), StandingOffer(c, due, r));
    SaleInserts(c, w, r);
    seat := PlaceOfSale(c, w, r);
    TicketIsSpelledOut(c, w, r, ChosenSeatId(c, due, r), fare);
  }

  lemma TicketIsSpelledOut(c: Context, w: World, r: SaleRequest, seat: Option<string>, fare: int)
    ensures SaleDraft(c, w, r, seat, fare)
            == Hold(c.names.id(w.ids), GivenName(c, r.reference, w.refs), r.trip,
                    if seat.Some? then seat.value else "", r.leg, r.passenger, r.passengerName, r.travelClass,
                    if seat.Some? then Confirmed else Standing, fare, 0, w.clock)
    ensures RefsAfter(r.reference, w.refs)
            == if r.reference == None || r.reference == Some("") then w.refs + 1 else w.refs
  {
  }

  lemma PlaceOfSale(c: Context, w: World, r: SaleRequest) returns (seat: Option<nat>)
    requires WellFormed(c) && Sound(c, w) && r.trip in c.trips
    ensures var due, pool := ExpireDue(w.holds, w.clock), Pool(c.trips[r.trip], r.travelClass);
            && (seat.None? <==> forall s :: s in pool ==> Blocked(due, r.trip, s.id, r.leg))
            && (seat.Some? ==> FullestUnblocked(due, r.trip, pool, r.leg, seat.value))
            && ChosenSeatId(c, due, r) == if seat.Some? then Some(pool[seat.value].id) else None
  {
    var due := ExpireDue(w.holds, w.clock);
    seat := ChosenSeat(c, due, r);
    ChosenIffSomeSeatFree(c, due, r);
    if seat.Some? {
      ExpiryIsProgress(w.holds, w.clock);
      ProgressKeepsNoDoubleBooking(w.holds, due);
      ChosenIsFullest(c, due, r);
    }
  }

  /** The stored booking can still be paid for. */
  predicate Payable(w: World, id: string) {
    exists h :: h in w.holds && h.id == id && h.status == Held && w.clock < h.heldUntil
  }

  predicate Known(w: World, id: string) {
    exists h :: h in w.holds && h.id == id
  }

  /** Each outcome of a confirmation, exactly. */
  lemma ConfirmOutcomes(c: Context, w: World, id: string, accepted: bool)
    requires Sound(c, w)
    ensures var outcome := ConfirmBooking(c, w, id, accepted).1;
            && (outcome.Ok? <==> Payable(w, id) && accepted)
            && (outcome == Err(BookingNotFound) <==> !Known(w, id))
            && (outcome == Err(IllegalTransition) <==> Known(w, id) && !Payable(w, id))
            && (outcome == Err(PaymentDeclined) <==> Payable(w, id) && !accepted)
  {
    var due := ExpireDue(w.holds, w.clock);
    var at := Lookup(due, id);
    if at.None? {
      forall h | h in w.holds ensures h.id != id {
        var i :| 0 <= i < |w.holds| && w.holds[i] == h;
        assert due[i].id != id;
      }
    } else {
      var h := w.holds[at.value];
      assert h in w.holds && Sited(c, w.clock, h);
      OnlyOneWithId(w.holds, at.value);
      assert Payable(w, id) <==> h.status == Held && w.clock < h.heldUntil;
      assert CanApply(due[at.value].status, Confirm) <==> due[at.value].status == Held;
    }
  }

  lemma OnlyOneWithId(holds: seq<Hold>, at: nat)
    requires Keyed(holds) && at < |holds|
    ensures forall g :: g in holds && g.id == holds[at].id ==> g == holds[at]
  {
    forall g | g in holds && g.id == holds[at].id ensures g == holds[at] {
      var i :| 0 <= i < |holds| && holds[i] == g;
      assert i == at;
    }
  }

  /** Cancelling marks that booking cancelled, whatever live status it had, and touches no other
      record, no name and no charge; refused, it touches nothing at all. */
  lemma CancelLeaves(c: Context, w: World, id: string)
    requires Sound(c, w)
    ensures var (w', outcome) := CancelBooking(w, id);
            && (outcome.Err? ==> w' == w)
            && (outcome.Ok? ==>
                  && w' == w.(holds := w'.holds) && |w'.holds| == |w.holds|
                  && outcome.value.id == id && outcome.value.status == Cancelled && outcome.value in w'.holds
                  && forall i :: 0 <= i < |w.holds| ==>
                       w'.holds[i] == if w.holds[i].id == id then w.holds[i].(status := Cancelled) else w.holds[i])
  {
    var at := Lookup(w.holds, id);
    if at.Some? && CancelBooking(w, id).1.Ok? {
      assert CancelBooking(w, id).0.holds[at.value] == CancelBooking(w, id).1.value;
      forall i | 0 <= i < |w.holds| && i != at.value ensures w.holds[i].id != id {
        assert i < at.value ==> w.holds[i].id != w.holds[at.value].id;
        assert at.value < i ==> w.holds[at.value].id != w.holds[i].id;
      }
    }
  }

  /** A confirmation that succeeds marks that booking confirmed, retires the overdue holds and
      charges its stored fare under its own reference. */
  lemma ConfirmLeaves(c: Context, w: World, id: string, accepted: bool)
    requires Sound(c, w) && ConfirmBooking(c, w, id, accepted).1.Ok?
    ensures var (w', outcome) := ConfirmBooking(c, w, id, accepted);
            && outcome.value.id == id && outcome.value.status == Confirmed && outcome.value in w'.holds
            && w' == w.(holds := w'.holds,
                        charges := w.charges + [Charge(outcome.value.reference, outcome.value.fare, true)])
            && |w'.holds| == |w.holds|
            && forall i :: 0 <= i < |w.holds| ==>
                 var h := w.holds[i];
                 w'.holds[i] == if h.id == id then h.(status := Confirmed)
                                else if h.status == Held && h.heldUntil <= w.clock then h.(status := Expired)
                                else h
  {
    var at := ConfirmShape(c, w, id, accepted);
    var (w', outcome) := ConfirmBooking(c, w, id, accepted);
    assert w'.holds[at] == outcome.value;
    forall i | 0 <= i < |w.holds| && i != at ensures w.holds[i].id != id {
      assert i < at ==> w.holds[i].id != w.holds[at].id;
      assert at < i ==> w.holds[at].id != w.holds[i].id;
    }
  }

  lemma OnlyPlace(holds: seq<Hold>, at: nat)
    requires Keyed(holds) && at < |holds|
    ensures Lookup(holds, holds[at].id) == Some(at)
  {
  }

  /** A refused confirmation leaves the world as it was, except that a declined payment stays on
      record, under the booking's reference and for its stored fare. */
  lemma ConfirmRefusedLeaves(c: Context, w: World, id: string, accepted: bool, at: nat)
    requires Sound(c, w) && ConfirmBooking(c, w, id, accepted).1.Err?
    requires at < |w.holds| && w.holds[at].id == id
    ensures var h, w' := w.holds[at], ConfirmBooking(c, w, id, accepted).0;
            w' == if h.status == Held && w.clock < h.heldUntil
                  then w.(charges := w.charges + [Charge(h.reference, h.fare, false)])
                  else w
  {
    var due := ExpireDue(w.holds, w.clock);
    assert Keyed(due) && due[at].id == id;
    OnlyPlace(due, at);
    assert w.holds[at] in w.holds && Sited(c, w.clock, w.holds[at]);
    assert CanApply(due[at].status, Confirm) <==> due[at].status == Held;
  }

  /** Cancelling works on every booking that is not already cancelled or expired, an overdue
      hold included, and on nothing else. */
  lemma CancelOutcomes(c: Context, w: World, id: string)
    requires Sound(c, w)
    ensures var outcome := CancelBooking(w, id).1;
            && (outcome.Ok? <==> exists h :: h in w.holds && h.id == id && !Terminal(h.status))
            && (outcome == Err(BookingNotFound) <==> !Known(w, id))
            && (outcome == Err(IllegalTransition) <==>
                  exists h :: h in w.holds && h.id == id && (h.status == Cancelled || h.status == Expired))
  {
    var at := Lookup(w.holds, id);
    if at.None? {
      forall h | h in w.holds ensures h.id != id {
      }
    } else {
      var h := w.holds[at.value];
      assert h in w.holds;
      OnlyOneWithId(w.holds, at.value);
      assert CanApply(h.status, Cancel) <==> !Terminal(h.status);
    }
  }
}
