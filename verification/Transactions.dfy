/** The use cases as whole transactions over one world: the booking table, the clock, the
    id and reference generators, and the payment gateway's record of charges. The table is
    changed only by a transaction that commits; generators and charges are never rolled back. */
module Transactions {
  import opened Outcomes
  import opened Stations
  import opened Records
  import opened Bookings
  import opened Policy
  import opened Support
  import opened Seating
  import opened Views

  datatype Charge = Charge(reference: string, cents: int, accepted: bool)

  datatype World = World(holds: seq<Hold>, clock: int, ids: nat, refs: nat, charges: seq<Charge>)

  datatype HoldRequest = HoldRequest(
    trip: string, seat: string, leg: Leg, passenger: string, passengerName: string,
    reference: Option<string>, score: real)

  datatype SaleRequest = SaleRequest(
    trip: string, leg: Leg, passenger: string, passengerName: string, travelClass: TravelClass,
    reference: Option<string>, score: real, accepted: bool)

  /** A counter sale's outcome: the ticket, and the standing prediction if it has no seat. */
  datatype Sale = Sale(ticket: Hold, offer: Option<SeatOffer>)

  datatype Verdict = Valid | Unpaid | VoidCancelled | VoidExpired

  function VerdictOf(s: Status): Verdict {
    match s
    case Confirmed => Valid
    case Standing => Valid
    case Held => Unpaid
    case Cancelled => VoidCancelled
    case Expired => VoidExpired
  }

  /** An empty reference counts as none when a name is needed, though it is still looked up. */
  predicate Supplied(reference: Option<string>) {
    reference.Some? && reference.value != ""
  }

  function NameFor(c: Context, reference: Option<string>, refs: nat): string {
    if Supplied(reference) then reference.value else ReferenceOf(c, refs)
  }

  function RefsAfter(reference: Option<string>, refs: nat): nat {
    if Supplied(reference) then refs else refs + 1
  }

  /** The booking an earlier request with the same reference created, if any. */
  function Replayed(holds: seq<Hold>, reference: Option<string>): Option<Hold> {
    if reference.Some? then ByReference(holds, reference.value) else None
  }

  function SeatOn(trip: Trip, id: string): (seat: Option<Seat>)
    ensures seat.Some? ==> seat.value in trip.seats && seat.value.id == id
    ensures seat.Some? ==> exists i :: FirstNamed(trip.seats, id, i) && seat.value == trip.seats[i]
    ensures seat.None? <==> id !in SeatIds(trip)
  {
    FirstSeat(trip.seats, id)
  }

  /** The i-th seat is the first one listed under this id. */
  predicate FirstNamed(seats: seq<Seat>, id: string, i: int) {
    0 <= i < |seats| && seats[i].id == id && forall j :: 0 <= j < i ==> seats[j].id != id
  }

  function FirstSeat(seats: seq<Seat>, id: string): (seat: Option<Seat>)
    ensures seat.Some? ==> exists i :: FirstNamed(seats, id, i) && seat.value == seats[i]
    ensures seat.None? <==> forall s :: s in seats ==> s.id != id
  {
    if seats == [] then None
    else if seats[0].id == id then
      assert FirstNamed(seats, id, 0);
      Some(seats[0])
    else
      assert seats == [seats[0]] + seats[1..];
      assert forall i :: FirstNamed(seats[1..], id, i) ==> FirstNamed(seats, id, i + 1);
      FirstSeat(seats[1..], id)
  }

  // ---- hold_seat -----------------------------------------------------------------------------

  /** Why a hold is refused before its record is drafted, in the order the checks are made. */
  function HoldRefusal(c: Context, due: seq<Hold>, now: int, r: HoldRequest): (e: Option<Error>)
    ensures e.None? ==> r.trip in c.trips && ValidLeg(c.trips[r.trip], r.leg) && SeatOn(c.trips[r.trip], r.seat).Some?
  {
    if r.trip !in c.trips then Some(TripMissing)
    else if !ValidLeg(c.trips[r.trip], r.leg) then Some(InvalidLeg)
    else
      var seat := SeatOn(c.trips[r.trip], r.seat);
      if seat.None? || seat.value.kind != Reserved then Some(SeatNotBookable)
      else GateRefusal(c.config, due, r.trip, r.passenger, now, r.score)
  }

  function HoldDraft(c: Context, w: World, r: HoldRequest, travelClass: TravelClass, fare: int): Hold {
    Hold(IdOf(c, w.ids), NameFor(c, r.reference, w.refs), r.trip, r.seat, r.leg, r.passenger, r.passengerName,
         travelClass, Held, fare, w.clock + c.config.holdTtl, w.clock)
  }

  function HoldSeat(c: Context, w: World, r: HoldRequest): (World, Outcome<Hold>) {
    var replayed := Replayed(w.holds, r.reference);
    if replayed.Some? then
      (w, Ok(replayed.value))
    else
      var due := ExpireDue(w.holds, w.clock);
      var refusal := HoldRefusal(c, due, w.clock, r);
      if refusal.Some? then
        (w, Err(refusal.value))
      else
        var travelClass := SeatOn(c.trips[r.trip], r.seat).value.travelClass;
        PlaceHold(c, w, due, r, travelClass, PriceLeg(c, due, c.trips[r.trip], r.leg, travelClass))
  }

  /** Draw the names, fix the fare, insert, commit. */
  function PlaceHold(c: Context, w: World, due: seq<Hold>, r: HoldRequest, travelClass: TravelClass,
                     fare: Outcome<int>): (World, Outcome<Hold>) {
    var drawn := w.(ids := w.ids + 1, refs := RefsAfter(r.reference, w.refs));
    if fare.Err? then
      (drawn, Err(fare.error))
    else
      var hold := HoldDraft(c, w, r, travelClass, fare.value);
      var inserted := AddHold(due, hold);
      if inserted.Err? then (drawn, Err(inserted.error)) else (drawn.(holds := inserted.value), Ok(hold))
  }

  // ---- sell_unreserved -------------------------------------------------------------------------

  function UnreservedIn(seats: seq<Seat>, travelClass: TravelClass): (pool: seq<Seat>)
    ensures forall s :: s in pool <==> s in seats && s.kind == Unreserved && s.travelClass == travelClass
  {
    if seats == [] then
      []
    else
      var last := seats[|seats| - 1];
      assert seats == seats[..|seats| - 1] + [last];
      var before := UnreservedIn(seats[..|seats| - 1], travelClass);
      if last.kind == Unreserved && last.travelClass == travelClass then before + [last] else before
  }

  function Pool(trip: Trip, travelClass: TravelClass): seq<Seat> {
    UnreservedIn(trip.seats, travelClass)
  }

  /** The legs already on each seat of the pool. */
  function PoolLegs(holds: seq<Hold>, trip: string, pool: seq<Seat>): (legs: seq<seq<Leg>>)
    ensures |legs| == |pool|
    ensures forall i :: 0 <= i < |pool| ==> legs[i] == LegsOf(Select(holds, SeatActive(trip, pool[i].id)))
  {
    seq(|pool|, i requires 0 <= i < |pool| => LegsOf(Select(holds, SeatActive(trip, pool[i].id))))
  }

  function SaleRefusal(c: Context, due: seq<Hold>, now: int, r: SaleRequest): (e: Option<Error>)
    ensures e.None? ==> r.trip in c.trips && ValidLeg(c.trips[r.trip], r.leg)
  {
    if r.trip !in c.trips then Some(TripMissing)
    else if !ValidLeg(c.trips[r.trip], r.leg) then Some(InvalidLeg)
    else
      var gate := GateRefusal(c.config, due, r.trip, r.passenger, now, r.score);
      if gate.Some? then gate
      else if Pool(c.trips[r.trip], r.travelClass) == [] then Some(SeatNotBookable)
      else None
  }

  ghost function ChosenSeat(c: Context, due: seq<Hold>, r: SaleRequest): (chosen: Option<nat>)
    requires r.trip in c.trips
    ensures chosen.Some? ==> chosen.value < |Pool(c.trips[r.trip], r.travelClass)|
  {
    BestFit(PoolLegs(due, r.trip, Pool(c.trips[r.trip], r.travelClass)), r.leg)
  }

  /** The id of the chosen seat, if there is one. */
  ghost function ChosenSeatId(c: Context, due: seq<Hold>, r: SaleRequest): Option<string>
    requires r.trip in c.trips
  {
    var chosen := ChosenSeat(c, due, r);
    if chosen.Some? then Some(Pool(c.trips[r.trip], r.travelClass)[chosen.value].id) else None
  }

  /** A paid ticket never expires; without a seat it is a standing one. */
  function SaleDraft(c: Context, w: World, r: SaleRequest, seat: Option<string>, fare: int): Hold {
    Hold(IdOf(c, w.ids), NameFor(c, r.reference, w.refs), r.trip, if seat.Some? then seat.value else "",
         r.leg, r.passenger, r.passengerName, r.travelClass,
         if seat.Some? then Confirmed else Standing, fare, 0, w.clock)
  }

  ghost function StandingOffer(c: Context, due: seq<Hold>, r: SaleRequest): Option<SeatOffer>
    requires r.trip in c.trips
  {
    if ChosenSeat(c, due, r).Some? then None
    else OfferFor(PoolLegs(due, r.trip, Pool(c.trips[r.trip], r.travelClass)), r.leg)
  }

  predicate StandingRoom(c: Context, due: seq<Hold>, trip: string, travelClass: TravelClass) {
    |Select(due, StandingIn(trip, travelClass))| < c.config.standingCapacity
  }

  /** What stands in the way of a sale before its fare is quoted. */
  ghost function SaleObstacle(c: Context, due: seq<Hold>, now: int, r: SaleRequest): (e: Option<Error>)
    ensures e.None? ==> r.trip in c.trips && ValidLeg(c.trips[r.trip], r.leg)
  {
    var refusal := SaleRefusal(c, due, now, r);
    if refusal.Some? then refusal
    else if ChosenSeat(c, due, r).None? && !StandingRoom(c, due, r.trip, r.travelClass) then Some(CoachFull)
    else None
  }

  ghost function SellUnreserved(c: Context, w: World, r: SaleRequest): (World, Outcome<Sale>) {
    var replayed := Replayed(w.holds, r.reference);
    if replayed.Some? then
      (w, if replayed.value.trip in c.trips then Ok(Sale(replayed.value, None)) else Err(TripMissing))
    else
      SellAfresh(c, w, ExpireDue(w.holds, w.clock), r)
  }

  ghost function SellAfresh(c: Context, w: World, due: seq<Hold>, r: SaleRequest): (World, Outcome<Sale>) {
    var obstacle := SaleObstacle(c, due, w.clock, r);
    if obstacle.Some? then
      (w, Err(obstacle.value))
    else
      var fare := PriceLeg(c, due, c.trips[r.trip], r.leg, r.travelClass);
      if fare.Err? then (w, Err(fare.error))
      else Settle(c, w, due, r, fare.value, ChosenSeatId(c, due, r), StandingOffer(c, due, r))
  }

  /** Name the ticket, take the money, draw the id, insert, commit. */
  function Settle(c: Context, w: World, due: seq<Hold>, r: SaleRequest, fare: int,
                  seat: Option<string>, offer: Option<SeatOffer>): (World, Outcome<Sale>) {
    var charged := w.(refs := RefsAfter(r.reference, w.refs),
                      charges := w.charges + [Charge(NameFor(c, r.reference, w.refs), fare, r.accepted)]);
    if !r.accepted then
      (charged, Err(PaymentDeclined))
    else
      var ticket := SaleDraft(c, w, r, seat, fare);
      var drawn := charged.(ids := w.ids + 1);
      var inserted := AddHold(due, ticket);
      if inserted.Err? then (drawn, Err(inserted.error)) else (drawn.(holds := inserted.value), Ok(Sale(ticket, offer)))
  }

  // ---- confirm, cancel, verify -------------------------------------------------------------------

  function ConfirmBooking(c: Context, w: World, id: string, accepted: bool): (World, Outcome<Hold>) {
    var due := ExpireDue(w.holds, w.clock);
    var at := Lookup(due, id);
    if at.None? then
      (w, Err(BookingNotFound))
    else
      var hold := due[at.value];
      var target := Apply(hold.status, Confirm);
      if target.Err? then (w, Err(target.error))
      else if hold.trip !in c.trips then (w, Err(TripMissing))
      else
        var charged := w.(charges := w.charges + [Charge(hold.reference, hold.fare, accepted)]);
        if !accepted then
          (charged, Err(PaymentDeclined))
        else
          (charged.(holds := WithStatus(due, at.value, target.value)), Ok(hold.(status := target.value)))
  }

  /** Cancelling does not expire overdue holds first. */
  function CancelBooking(w: World, id: string): (World, Outcome<Hold>) {
    var at := Lookup(w.holds, id);
    if at.None? then
      (w, Err(BookingNotFound))
    else
      var target := Apply(w.holds[at.value].status, Cancel);
      if target.Err? then (w, Err(target.error))
      else (w.(holds := WithStatus(w.holds, at.value, Cancelled)), Ok(w.holds[at.value].(status := Cancelled)))
  }

  function VerifyTicket(c: Context, w: World, reference: string): (World, Outcome<(Verdict, Hold)>) {
    var due := ExpireDue(w.holds, w.clock);
    var found := ByReference(due, reference);
    if found.None? then (w, Err(BookingNotFound))
    else if found.value.trip !in c.trips then (w, Err(TripMissing))
    else (w.(holds := due), Ok((VerdictOf(found.value.status), found.value)))
  }

  // ---- transactions that only read, after retiring overdue holds ----------------------------------

  function LegAvailability(c: Context, w: World, trip: string, leg: Leg): (World, Outcome<Availability>) {
    if trip !in c.trips then (w, Err(TripMissing))
    else if !ValidLeg(c.trips[trip], leg) then (w, Err(InvalidLeg))
    else
      var due := ExpireDue(w.holds, w.clock);
      (w.(holds := due), Ok(AvailabilityOver(Select(due, TripActive(trip)), c.trips[trip].seats, leg)))
  }

  /** Search over the trips that run on the requested date, already in departure order. */
  function SearchTrains(c: Context, w: World, trips: seq<Trip>, originCode: string, destCode: string)
    : (World, Outcome<seq<TrainOption>>)
  {
    var due := ExpireDue(w.holds, w.clock);
    if originCode == destCode then (w, Err(InvalidLeg))
    else
      var options := OptionsFor(c, due, trips, originCode, destCode);
      if options.Err? then (w, Err(options.error)) else (w.(holds := due), Ok(options.value))
  }

  // ---- runs ------------------------------------------------------------------------------------------

  datatype Command =
    | HoldCommand(hold: HoldRequest)
    | SellCommand(sale: SaleRequest)
    | ConfirmCommand(id: string, accepted: bool)
    | CancelCommand(id: string)
    | VerifyCommand(reference: string)
    | AvailabilityCommand(trip: string, leg: Leg)
    | SearchCommand(trips: seq<Trip>, originCode: string, destCode: string)
    | TickCommand(seconds: nat)

  /** One committed or rolled-back transaction, or the clock moving forward. */
  ghost function Step(c: Context, w: World, command: Command): World {
    match command
    case HoldCommand(r) => HoldSeat(c, w, r).0
    case SellCommand(r) => SellUnreserved(c, w, r).0
    case ConfirmCommand(id, accepted) => ConfirmBooking(c, w, id, accepted).0
    case CancelCommand(id) => CancelBooking(w, id).0
    case VerifyCommand(reference) => VerifyTicket(c, w, reference).0
    case AvailabilityCommand(trip, leg) => LegAvailability(c, w, trip, leg).0
    case SearchCommand(trips, originCode, destCode) => SearchTrains(c, w, trips, originCode, destCode).0
    case TickCommand(seconds) => w.(clock := w.clock + seconds)
  }

  /** The command raises, and its unit of work is left without a commit. */
  ghost predicate Refused(c: Context, w: World, command: Command) {
    match command
    case HoldCommand(r) => HoldSeat(c, w, r).1.Err?
    case SellCommand(r) => SellUnreserved(c, w, r).1.Err?
    case ConfirmCommand(id, accepted) => ConfirmBooking(c, w, id, accepted).1.Err?
    case CancelCommand(id) => CancelBooking(w, id).1.Err?
    case VerifyCommand(reference) => VerifyTicket(c, w, reference).1.Err?
    case AvailabilityCommand(trip, leg) => LegAvailability(c, w, trip, leg).1.Err?
    case SearchCommand(trips, originCode, destCode) => SearchTrains(c, w, trips, originCode, destCode).1.Err?
    case TickCommand(_) => false
  }

  function Fresh(clock: int): World {
    World([], clock, 0, 0, [])
  }

  /** The world after any serial run of transactions. */
  ghost function Run(c: Context, clock: int, commands: seq<Command>): World {
    if commands == [] then Fresh(clock)
    else Step(c, Run(c, clock, commands[..|commands| - 1]), commands[|commands| - 1])
  }
}
