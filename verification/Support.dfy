/** Read helpers shared by the use cases: leg validation, occupancy, the one price function. */
module Support {
  import opened Outcomes
  import opened Stations
  import opened Records
  import opened Bookings
  import opened Policy
  import opened Fares
  import opened Depth
  import opened Identifiers

  /** The pricing port: kilometres, class multiplier and occupancy to a fare, or an error. */
  type Pricing = (real, real, real) -> Outcome<int>

  /** What stays constant through a run: the trips, the configuration, whatever pricing is
      plugged in, and the generators of names. */
  datatype Context = Context(trips: map<string, Trip>, config: Config, fares: Pricing, names: Generators)

  /** The id drawn when n ids have been drawn before. */
  function IdOf(c: Context, n: nat): string {
    c.names.id(n)
  }

  /** The reference drawn when n references have been drawn before. */
  function ReferenceOf(c: Context, n: nat): string {
    c.names.reference(n)
  }

  /** Trips are filed under their own id, their seats have non-empty ids, and no booking id is
      generated twice. */
  ghost predicate WellFormed(c: Context) {
    && (forall t :: t in c.trips ==> c.trips[t].id == t && forall s :: s in c.trips[t].seats ==> s.id != "")
    && NeverRepeats(c.names.id)
  }

  predicate ValidLeg(trip: Trip, leg: Leg) {
    OnLine(trip.stations, leg.origin) && OnLine(trip.stations, leg.dest)
  }

  function SeatIds(trip: Trip): set<string> {
    set s | s in trip.seats :: s.id
  }

  /** Seats with an active booking over some part of the leg. */
  function BusySeats(holds: seq<Hold>, trip: string, leg: Leg): set<string> {
    set h | h in Select(holds, TripActive(trip)) && h.leg.Overlaps(leg) :: h.seat
  }

  function OccupancyOverLeg(holds: seq<Hold>, trip: Trip, leg: Leg): real {
    if trip.seats == [] then 0.0 else |BusySeats(holds, trip.id, leg)| as real / |trip.seats| as real
  }

  function LegDistanceKm(trip: Trip, leg: Leg): real
    requires ValidLeg(trip, leg)
  {
    DistanceKm(leg, KmIndex(trip.stations))
  }

  function PriceLeg(c: Context, holds: seq<Hold>, trip: Trip, leg: Leg, travelClass: TravelClass): Outcome<int>
    requires ValidLeg(trip, leg)
  {
    c.fares(LegDistanceKm(trip, leg), ClassMult(c.config, travelClass), OccupancyOverLeg(holds, trip, leg))
  }

  // ---- the pricing adapters --------------------------------------------------------------------

  datatype FareStrategy =
    | FixedFare(amount: int)
    | DistanceStrategy(ratePerKm: int)
    | DynamicStrategy(ratePerKm: int, floor: real, ceiling: real)

  function StrategyPrice(strategy: FareStrategy, km: real, classMult: real, occupancy: real): Outcome<int> {
    match strategy
    case FixedFare(amount) => Ok(amount)
    case DistanceStrategy(rate) => Ok(DistanceFare(km, rate, classMult))
    case DynamicStrategy(rate, floor, ceiling) => DynamicFare(km, rate, classMult, occupancy, floor, ceiling)
  }

  function PricedBy(strategy: FareStrategy): Pricing {
    (km: real, classMult: real, occupancy: real) => StrategyPrice(strategy, km, classMult, occupancy)
  }

  // ---- what a price is asked for ---------------------------------------------------------------

  /** Seats with a held or confirmed booking of the trip that is on board for part of the leg. */
  ghost function SeatsInUse(holds: seq<Hold>, trip: string, leg: Leg): set<string> {
    set h | h in holds && h.trip == trip && (h.status == Held || h.status == Confirmed)
            && h.leg.origin < leg.dest && leg.origin < h.leg.dest :: h.seat
  }

  /** The kilometres are those from the origin's post to the destination's, the multiplier is the
      one configured for the class, and the occupancy is seats in use over all seats. */
  ghost predicate AskedFor(c: Context, holds: seq<Hold>, trip: Trip, leg: Leg, travelClass: TravelClass,
                           km: real, multiplier: real, occupancy: real) {
    && (exists i, j :: LastAt(trip.stations, i) && trip.stations[i].seq_no == leg.origin
                       && LastAt(trip.stations, j) && trip.stations[j].seq_no == leg.dest
                       && km == trip.stations[j].km - trip.stations[i].km)
    && (travelClass == First ==> multiplier == c.config.multFirst)
    && (travelClass == Second ==> multiplier == c.config.multSecond)
    && (travelClass == Third ==> multiplier == c.config.multThird)
    && (trip.seats == [] ==> occupancy == 0.0)
    && (trip.seats != [] ==> occupancy == |SeatsInUse(holds, trip.id, leg)| as real / |trip.seats| as real)
  }

  /** Whatever pricing is plugged in, a leg costs what it says for just these three numbers. */
  lemma PriceAsksFor(c: Context, holds: seq<Hold>, trip: Trip, leg: Leg, travelClass: TravelClass)
    returns (km: real, multiplier: real, occupancy: real)
    requires ValidLeg(trip, leg)
    ensures AskedFor(c, holds, trip, leg, travelClass, km, multiplier, occupancy)
    ensures PriceLeg(c, holds, trip, leg, travelClass) == c.fares(km, multiplier, occupancy)
  {
    km, multiplier := LegDistanceKm(trip, leg), ClassMult(c.config, travelClass);
    occupancy := OccupancyOverLeg(holds, trip, leg);
    var i := LastListed(trip.stations, leg.origin);
    var j := LastListed(trip.stations, leg.dest);
    assert km == trip.stations[j].km - trip.stations[i].km;
    assert BusySeats(holds, trip.id, leg) == SeatsInUse(holds, trip.id, leg);
  }

  lemma AskedForOnce(c: Context, holds: seq<Hold>, trip: Trip, leg: Leg, travelClass: TravelClass,
                     km: real, multiplier: real, occupancy: real, km': real, multiplier': real, occupancy': real)
    requires AskedFor(c, holds, trip, leg, travelClass, km, multiplier, occupancy)
    requires AskedFor(c, holds, trip, leg, travelClass, km', multiplier', occupancy')
    ensures km == km' && multiplier == multiplier' && occupancy == occupancy'
  {
    match travelClass { case First => case Second => case Third => }
  }

  /** A fixed fare is the amount, for every leg. */
  lemma FixedPriceIs(c: Context, amount: int, holds: seq<Hold>, trip: Trip, leg: Leg, travelClass: TravelClass)
    requires ValidLeg(trip, leg) && c.fares == PricedBy(FixedFare(amount))
    ensures PriceLeg(c, holds, trip, leg, travelClass) == Ok(amount)
  {
  }

  /** By distance, the price is the nearest cent to rate times kilometres times multiplier. */
  lemma DistancePriceIsNear(c: Context, rate: int, holds: seq<Hold>, trip: Trip, leg: Leg, travelClass: TravelClass,
                            km: real, multiplier: real, occupancy: real)
    requires ValidLeg(trip, leg) && c.fares == PricedBy(DistanceStrategy(rate))
    requires AskedFor(c, holds, trip, leg, travelClass, km, multiplier, occupancy)
    ensures var price := PriceLeg(c, holds, trip, leg, travelClass);
            price.Ok? && -0.5 <= price.value as real - rate as real * km * multiplier <= 0.5
  {
    var km', multiplier', occupancy' := PriceAsksFor(c, holds, trip, leg, travelClass);
    AskedForOnce(c, holds, trip, leg, travelClass, km, multiplier, occupancy, km', multiplier', occupancy');
    DistanceFareIsNearest(km, rate, multiplier);
    assert PriceLeg(c, holds, trip, leg, travelClass) == Ok(DistanceFare(km, rate, multiplier));
  }

  /** By demand, it is that again times a factor that runs straight from floor to ceiling with
      occupancy, to within half a cent plus half a cent per unit of the factor; an inverted band
      is refused. */
  lemma DynamicPriceIsNear(c: Context, rate: int, floor: real, ceiling: real, holds: seq<Hold>, trip: Trip, leg: Leg,
                           travelClass: TravelClass, km: real, multiplier: real, occupancy: real, demand: real)
    requires ValidLeg(trip, leg) && c.fares == PricedBy(DynamicStrategy(rate, floor, ceiling))
    requires AskedFor(c, holds, trip, leg, travelClass, km, multiplier, occupancy) && 0.0 <= occupancy <= 1.0
    requires 0.0 <= floor && demand == floor + (ceiling - floor) * occupancy
    ensures var price := PriceLeg(c, holds, trip, leg, travelClass);
            && (price.Err? <==> ceiling < floor) && (price.Err? ==> price.error == BadConfig)
            && (price.Ok? ==>
                  -(0.5 + demand / 2.0) <= price.value as real - rate as real * km * multiplier * demand
                                        <= 0.5 + demand / 2.0)
  {
    var km', multiplier', occupancy' := PriceAsksFor(c, holds, trip, leg, travelClass);
    AskedForOnce(c, holds, trip, leg, travelClass, km, multiplier, occupancy, km', multiplier', occupancy');
    DynamicFareIsNear(km, rate, multiplier, occupancy, floor, ceiling, demand);
    assert PriceLeg(c, holds, trip, leg, travelClass) == DynamicFare(km, rate, multiplier, occupancy, floor, ceiling);
  }

  // ---- occupancy and price as bookings come and go -------------------------------------------

  lemma {:induction false} SeatIdsBound(seats: seq<Seat>, ids: set<string>)
    requires forall id :: id in ids ==> exists s :: s in seats && s.id == id
    ensures |ids| <= |seats|
  {
    if seats == [] {
      assert ids == {};
    } else {
      var before, last := seats[..|seats| - 1], seats[|seats| - 1];
      assert seats == before + [last];
      SeatIdsBound(before, ids - {last.id});
      SubsetSize(ids, ids - {last.id} + {last.id});
    }
  }

  /** When every active booking of the trip sits on one of its seats, occupancy is a fraction. */
  lemma OccupancyIsAFraction(holds: seq<Hold>, trip: Trip, leg: Leg)
    requires forall h :: h in holds && Matches(TripActive(trip.id), h) ==> h.seat in SeatIds(trip)
    ensures 0.0 <= OccupancyOverLeg(holds, trip, leg) <= 1.0
  {
    if trip.seats != [] {
      SeatIdsBound(trip.seats, BusySeats(holds, trip.id, leg));
      FractionBounds(|BusySeats(holds, trip.id, leg)|, |trip.seats|, |trip.seats|);
    }
  }

  lemma FractionBounds(a: nat, b: nat, n: nat)
    requires a <= b && 0 < n
    ensures 0.0 <= a as real / n as real <= b as real / n as real
    ensures n as real / n as real == 1.0
  {
  }

  /** More active bookings can only raise occupancy. */
  lemma OccupancyGrows(a: seq<Hold>, b: seq<Hold>, trip: Trip, leg: Leg)
    requires BusySeats(a, trip.id, leg) <= BusySeats(b, trip.id, leg)
    ensures OccupancyOverLeg(a, trip, leg) <= OccupancyOverLeg(b, trip, leg)
  {
    if trip.seats != [] {
      SubsetSize(BusySeats(a, trip.id, leg), BusySeats(b, trip.id, leg));
      FractionBounds(|BusySeats(a, trip.id, leg)|, |BusySeats(b, trip.id, leg)|, |trip.seats|);
    }
  }

  /** Charges and multipliers that make sense: nothing negative, an upright demand band. */
  ghost predicate SaneFares(c: Context, strategy: FareStrategy, trip: Trip, leg: Leg, travelClass: TravelClass)
    requires ValidLeg(trip, leg)
  {
    && 0.0 <= LegDistanceKm(trip, leg)
    && 0.0 <= ClassMult(c.config, travelClass)
    && match strategy
       case FixedFare(amount) => true
       case DistanceStrategy(rate) => 0 <= rate
       case DynamicStrategy(rate, floor, ceiling) => 0 <= rate && 0.0 <= floor <= ceiling
  }

  lemma FullerNeverCheaper(c: Context, strategy: FareStrategy, a: seq<Hold>, b: seq<Hold>,
                           trip: Trip, leg: Leg, travelClass: TravelClass)
    requires ValidLeg(trip, leg) && c.fares == PricedBy(strategy) && SaneFares(c, strategy, trip, leg, travelClass)
    requires BusySeats(a, trip.id, leg) <= BusySeats(b, trip.id, leg)
    ensures PriceLeg(c, a, trip, leg, travelClass).Ok? && PriceLeg(c, b, trip, leg, travelClass).Ok?
    ensures PriceLeg(c, a, trip, leg, travelClass).value <= PriceLeg(c, b, trip, leg, travelClass).value
  {
    OccupancyGrows(a, b, trip, leg);
    var km, mult := LegDistanceKm(trip, leg), ClassMult(c.config, travelClass);
    match strategy
    case FixedFare(_) =>
    case DistanceStrategy(_) =>
    case DynamicStrategy(rate, floor, ceiling) =>
      DynamicFareIsMonotone(km, km, rate, mult, OccupancyOverLeg(a, trip, leg), OccupancyOverLeg(b, trip, leg),
                            floor, ceiling);
  }

  /** Booking a seat never lowers a quote; releasing bookings (cancellation, expiry, any
      progress of the status machine) never raises one. */
  lemma QuotesFollowDemand(c: Context, strategy: FareStrategy, holds: seq<Hold>, h: Hold, after: seq<Hold>,
                           trip: Trip, leg: Leg, travelClass: TravelClass)
    requires ValidLeg(trip, leg) && c.fares == PricedBy(strategy) && SaneFares(c, strategy, trip, leg, travelClass)
    requires Progress(holds, after)
    ensures PriceLeg(c, holds, trip, leg, travelClass).Ok?
    ensures PriceLeg(c, holds + [h], trip, leg, travelClass).Ok? && PriceLeg(c, after, trip, leg, travelClass).Ok?
    ensures PriceLeg(c, holds, trip, leg, travelClass).value <= PriceLeg(c, holds + [h], trip, leg, travelClass).value
    ensures PriceLeg(c, after, trip, leg, travelClass).value <= PriceLeg(c, holds, trip, leg, travelClass).value
  {
    SelectOfMore(holds, h, TripActive(trip.id));
    assert BusySeats(holds, trip.id, leg) <= BusySeats(holds + [h], trip.id, leg);
    FullerNeverCheaper(c, strategy, holds, holds + [h], trip, leg, travelClass);
    BusySeatsShrink(holds, after, trip.id, leg);
    FullerNeverCheaper(c, strategy, after, holds, trip, leg, travelClass);
  }

  lemma BusySeatsShrink(holds: seq<Hold>, after: seq<Hold>, trip: string, leg: Leg)
    requires Progress(holds, after)
    ensures BusySeats(after, trip, leg) <= BusySeats(holds, trip, leg)
  {
    var q := TripActive(trip);
    forall seat | seat in BusySeats(after, trip, leg) ensures seat in BusySeats(holds, trip, leg) {
      var h :| h in Select(after, q) && h.leg.Overlaps(leg) && h.seat == seat;
      assert h in after && Matches(q, h);
      var i :| 0 <= i < |after| && after[i] == h;
      assert Advances(holds[i], after[i]);
      StillMatches(q, holds[i], h);
      assert holds[i] in Select(holds, q);
    }
  }

  lemma StillMatches(q: Query, before: Hold, after: Hold)
    requires q.TripActive? && Advances(before, after) && Matches(q, after)
    ensures Matches(q, before) && before.leg == after.leg && before.seat == after.seat
  {
    TransitionsOnlyClimb(before.status, after.status);
  }
}
