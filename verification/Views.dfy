/** Three differently computed answers to "is this seat free?": the seat map, the search
    result, and the impact report. */
module Views {
  import opened Outcomes
  import opened Stations
  import opened Records
  import opened Bookings
  import opened Support
  import opened Depth
  import opened Seating

  // ---- leg_availability ------------------------------------------------------------------------

  datatype SeatView = SeatView(seat: string, coach: string, travelClass: TravelClass, available: bool)

  predicate SeatFree(active: seq<Hold>, seat: string, leg: Leg) {
    forall h :: h in active && h.seat == seat ==> !h.leg.Overlaps(leg)
  }

  /** One view per seat of the trip, in the trip's seat order. */
  function SeatMap(active: seq<Hold>, seats: seq<Seat>, leg: Leg): (views: seq<SeatView>)
    ensures |views| == |seats|
    ensures forall i :: 0 <= i < |seats| ==>
              var s := seats[i];
              views[i] == SeatView(s.id, s.coach, s.travelClass, SeatFree(active, s.id, leg))
  {
    seq(|seats|, i requires 0 <= i < |seats| =>
      SeatView(seats[i].id, seats[i].coach, seats[i].travelClass, SeatFree(active, seats[i].id, leg)))
  }

  ghost function FreeAt(views: seq<SeatView>): set<nat> {
    set i: nat | i < |views| && views[i].available
  }

  /** The number of seats shown available. */
  function CountFree(views: seq<SeatView>): (free: nat)
    ensures free == |FreeAt(views)|
  {
    if views == [] then
      0
    else
      var n := |views| - 1;
      assert FreeAt(views) == FreeAt(views[..n]) + if views[n].available then {n} else {};
      CountFree(views[..n]) + if views[n].available then 1 else 0
  }

  datatype Availability = Availability(seats: seq<SeatView>, freeCount: nat)

  function AvailabilityOver(active: seq<Hold>, seats: seq<Seat>, leg: Leg): Availability {
    Availability(SeatMap(active, seats, leg), CountFree(SeatMap(active, seats, leg)))
  }

  /** A seat is shown available iff inserting a fresh hold on it for this leg would succeed. */
  lemma AvailableMeansBookable(holds: seq<Hold>, trip: Trip, i: nat, leg: Leg, h: Hold)
    requires i < |trip.seats|
    requires h.trip == trip.id && h.seat == trip.seats[i].id && h.leg == leg && Lookup(holds, h.id).None?
    ensures SeatMap(Select(holds, TripActive(trip.id)), trip.seats, leg)[i].available <==> AddHold(holds, h).Ok?
  {
    var active := Select(holds, TripActive(trip.id));
    forall e | e in holds ensures Blocks(e, h) <==> e in active && e.seat == h.seat && e.leg.Overlaps(leg) {
      assert e.id != h.id;
    }
  }

  predicate BusyWith(active: seq<Hold>, seat: string, leg: Leg) {
    exists h :: h in active && h.seat == seat && h.leg == leg
  }

  /** The per-seat index of busy legs, and the seat map read off it. */
  method SeatViews(active: seq<Hold>, seats: seq<Seat>, leg: Leg) returns (views: seq<SeatView>)
    ensures views == SeatMap(active, seats, leg)
  {
    var busy: map<string, seq<Leg>> := map[];
    for i := 0 to |active|
      invariant forall h :: h in active[..i] ==> h.seat in busy && h.leg in busy[h.seat]
      invariant forall seat, l :: seat in busy && l in busy[seat] ==> BusyWith(active[..i], seat, l)
    {
      var hold := active[i];
      assert active[..i + 1] == active[..i] + [hold];
      assert hold in active[..i + 1] && forall h :: h in active[..i] ==> h in active[..i + 1];
      assert forall seat, l :: BusyWith(active[..i], seat, l) ==> BusyWith(active[..i + 1], seat, l);
      assert BusyWith(active[..i + 1], hold.seat, hold.leg);
      busy := busy[hold.seat := (if hold.seat in busy then busy[hold.seat] else []) + [hold.leg]];
    }
    assert active[..|active|] == active;
    views := [];
    for i := 0 to |seats|
      invariant views == SeatMap(active, seats[..i], leg)
    {
      var s := seats[i];
      var legs := if s.id in busy then busy[s.id] else [];
      var available := forall other :: other in legs ==> !other.Overlaps(leg);
      assert available <==> SeatFree(active, s.id, leg) by {
        forall h | h in active && h.seat == s.id ensures h.leg in legs {
          assert h.seat in busy && h.leg in busy[h.seat];
        }
      }
      views := views + [SeatView(s.id, s.coach, s.travelClass, available)];
    }
    assert seats[..|seats|] == seats;
  }

  // ---- search_trains ---------------------------------------------------------------------------

  datatype ClassOption = ClassOption(travelClass: TravelClass, freeSeats: nat, fare: int)

  const CLASS_ORDER := [First, Second, Third]

  /** The i-th station is the first one listed under this code. */
  predicate FirstCalled(stations: seq<Station>, code: string, i: int) {
    0 <= i < |stations| && stations[i].code == code && forall j :: 0 <= j < i ==> stations[j].code != code
  }

  function StationCalled(stations: seq<Station>, code: string): (found: Option<Station>)
    ensures found.Some? ==> exists i :: FirstCalled(stations, code, i) && found.value == stations[i]
    ensures found.None? ==> forall s :: s in stations ==> s.code != code
  {
    if stations == [] then None
    else if stations[0].code == code then
      assert FirstCalled(stations, code, 0);
      Some(stations[0])
    else
      assert stations == [stations[0]] + stations[1..];
      assert forall i :: FirstCalled(stations[1..], code, i) ==> FirstCalled(stations, code, i + 1);
      StationCalled(stations[1..], code)
  }

  /** The i-th stop is the first one listed at this position. */
  predicate FirstStop(stops: seq<Stop>, p: int, i: int) {
    0 <= i < |stops| && stops[i].stationSeq == p && forall j :: 0 <= j < i ==> stops[j].stationSeq != p
  }

  function StopAt(stops: seq<Stop>, p: int): (found: Option<Stop>)
    ensures found.Some? ==> exists i :: FirstStop(stops, p, i) && found.value == stops[i]
    ensures found.None? ==> forall s :: s in stops ==> s.stationSeq != p
  {
    if stops == [] then None
    else if stops[0].stationSeq == p then
      assert FirstStop(stops, p, 0);
      Some(stops[0])
    else
      assert stops == [stops[0]] + stops[1..];
      assert forall i :: FirstStop(stops[1..], p, i) ==> FirstStop(stops, p, i + 1);
      StopAt(stops[1..], p)
  }

  /** The train can be boarded at the leg's origin and left at its destination. */
  predicate Serves(stops: seq<Stop>, leg: Leg) {
    var origin, dest := StopAt(stops, leg.origin), StopAt(stops, leg.dest);
    origin.Some? && dest.Some? && origin.value.departMin.Some? && dest.value.arriveMin.Some?
  }

  predicate HasReserved(seats: seq<Seat>, travelClass: TravelClass) {
    exists s :: s in seats && s.kind == Reserved && s.travelClass == travelClass
  }

  /** Reserved seats of the class outside the busy set. */
  function FreeReserved(seats: seq<Seat>, travelClass: TravelClass, busy: set<string>): nat {
    if seats == [] then
      0
    else
      var s := seats[|seats| - 1];
      FreeReserved(seats[..|seats| - 1], travelClass, busy)
      + if s.kind == Reserved && s.travelClass == travelClass && s.id !in busy then 1 else 0
  }

  /** A class is offered if it has reserved seats, with its free seats and its price. */
  function ClassOffer(c: Context, holds: seq<Hold>, trip: Trip, leg: Leg, k: TravelClass): Outcome<Option<ClassOption>>
    requires ValidLeg(trip, leg)
  {
    if !HasReserved(trip.seats, k) then
      Ok(None)
    else
      var fare := PriceLeg(c, holds, trip, leg, k);
      if fare.Err? then Err(fare.error)
      else Ok(Some(ClassOption(k, FreeReserved(trip.seats, k, BusySeats(holds, trip.id, leg)), fare.value)))
  }

  function ClassOffers(c: Context, holds: seq<Hold>, trip: Trip, leg: Leg, classes: seq<TravelClass>)
    : (offers: seq<Outcome<Option<ClassOption>>>)
    requires ValidLeg(trip, leg)
    ensures |offers| == |classes|
    ensures forall i :: 0 <= i < |classes| ==> offers[i] == ClassOffer(c, holds, trip, leg, classes[i])
  {
    seq(|classes|, i requires 0 <= i < |classes| => ClassOffer(c, holds, trip, leg, classes[i]))
  }

  function ClassOptions(c: Context, holds: seq<Hold>, trip: Trip, leg: Leg, classes: seq<TravelClass>)
    : Outcome<seq<ClassOption>>
    requires ValidLeg(trip, leg)
  {
    Collect(ClassOffers(c, holds, trip, leg, classes))
  }

  /** One train's offer for a journey; times are minutes from midnight of its service date. */
  datatype TrainOption = TrainOption(
    trip: string, origin: int, dest: int, depart: int, arrive: int, distanceKm: real, classes: seq<ClassOption>)

  /** What one train offers for a journey, or nothing if it does not serve it. */
  function OptionFor(c: Context, holds: seq<Hold>, trip: Trip, originCode: string, destCode: string)
    : Outcome<Option<TrainOption>>
  {
    var origin, dest := StationCalled(trip.stations, originCode), StationCalled(trip.stations, destCode);
    if origin.None? || dest.None? || origin.value.seq_no >= dest.value.seq_no then
      Ok(None)
    else
      var leg := MakeLeg(origin.value.seq_no, dest.value.seq_no);
      if leg.Err? then Err(leg.error)
      else if !Serves(trip.stops, leg.value) then Ok(None)
      else
        var options := ClassOptions(c, holds, trip, leg.value, CLASS_ORDER);
        if options.Err? then Err(options.error)
        else Ok(Some(Offer(trip, leg.value, options.value)))
  }

  function Offer(trip: Trip, leg: Leg, classes: seq<ClassOption>): TrainOption
    requires ValidLeg(trip, leg) && Serves(trip.stops, leg)
  {
    TrainOption(trip.id, leg.origin, leg.dest,
                StopAt(trip.stops, leg.origin).value.departMin.value,
                StopAt(trip.stops, leg.dest).value.arriveMin.value,
                LegDistanceKm(trip, leg), classes)
  }

  function OffersFor(c: Context, holds: seq<Hold>, trips: seq<Trip>, originCode: string, destCode: string)
    : (offers: seq<Outcome<Option<TrainOption>>>)
    ensures |offers| == |trips|
    ensures forall i :: 0 <= i < |trips| ==> offers[i] == OptionFor(c, holds, trips[i], originCode, destCode)
  {
    seq(|trips|, i requires 0 <= i < |trips| => OptionFor(c, holds, trips[i], originCode, destCode))
  }

  /** The options of the trains that serve the journey, in the trains' order. */
  function OptionsFor(c: Context, holds: seq<Hold>, trips: seq<Trip>, originCode: string, destCode: string)
    : Outcome<seq<TrainOption>>
  {
    Collect(OffersFor(c, holds, trips, originCode, destCode))
  }

  /** The list keeps the order of departure it is given: from trips in two parts, what the first
      part offers comes first. */
  lemma SearchKeepsOrder(c: Context, holds: seq<Hold>, a: seq<Trip>, b: seq<Trip>, originCode: string, destCode: string)
    requires OptionsFor(c, holds, a, originCode, destCode).Ok? && OptionsFor(c, holds, b, originCode, destCode).Ok?
    ensures OptionsFor(c, holds, a + b, originCode, destCode)
            == Ok(OptionsFor(c, holds, a, originCode, destCode).value
                  + OptionsFor(c, holds, b, originCode, destCode).value)
  {
    CollectKeepsOrder(OffersFor(c, holds, a, originCode, destCode), OffersFor(c, holds, b, originCode, destCode));
    OffersInOrder(c, holds, a, b, originCode, destCode);
  }

  lemma OffersInOrder(c: Context, holds: seq<Hold>, a: seq<Trip>, b: seq<Trip>, originCode: string, destCode: string)
    ensures OffersFor(c, holds, a + b, originCode, destCode)
            == OffersFor(c, holds, a, originCode, destCode) + OffersFor(c, holds, b, originCode, destCode)
  {
  }

  /** Positions of the reserved seats of this class that the seat map shows available. */
  ghost function AvailableReserved(views: seq<SeatView>, seats: seq<Seat>, travelClass: TravelClass): set<nat> {
    set i: nat | i < |seats| && i < |views| && seats[i].kind == Reserved && seats[i].travelClass == travelClass
                 && views[i].available
  }

  /** A reserved seat of this class that no busy seat id names. */
  predicate IsOutside(seat: Seat, travelClass: TravelClass, busy: set<string>) {
    seat.kind == Reserved && seat.travelClass == travelClass && seat.id !in busy
  }

  ghost function OutsideBusy(seats: seq<Seat>, travelClass: TravelClass, busy: set<string>): set<nat> {
    set i: nat | i < |seats| && IsOutside(seats[i], travelClass, busy)
  }

  lemma OutsideOneMore(seats: seq<Seat>, s: Seat, travelClass: TravelClass, busy: set<string>)
    ensures |OutsideBusy(seats + [s], travelClass, busy)|
            == |OutsideBusy(seats, travelClass, busy)| + if IsOutside(s, travelClass, busy) then 1 else 0
  {
    if IsOutside(s, travelClass, busy) {
      assert OutsideBusy(seats + [s], travelClass, busy) == OutsideBusy(seats, travelClass, busy) + {|seats|};
    } else {
      assert OutsideBusy(seats + [s], travelClass, busy) == OutsideBusy(seats, travelClass, busy);
    }
  }

  lemma {:induction false} FreeReservedCounts(seats: seq<Seat>, travelClass: TravelClass, busy: set<string>)
    ensures FreeReserved(seats, travelClass, busy) == |OutsideBusy(seats, travelClass, busy)|
  {
    if seats == [] {
      assert OutsideBusy(seats, travelClass, busy) == {};
    } else {
      var n := |seats| - 1;
      FreeReservedCounts(seats[..n], travelClass, busy);
      OutsideOneMore(seats[..n], seats[n], travelClass, busy);
      assert seats == seats[..n] + [seats[n]];
    }
  }

  lemma FreeCountsAgree(holds: seq<Hold>, trip: string, seats: seq<Seat>, leg: Leg, travelClass: TravelClass)
    ensures FreeReserved(seats, travelClass, BusySeats(holds, trip, leg))
            == |AvailableReserved(SeatMap(Select(holds, TripActive(trip)), seats, leg), seats, travelClass)|
  {
    var active, busy := Select(holds, TripActive(trip)), BusySeats(holds, trip, leg);
    FreeReservedCounts(seats, travelClass, busy);
    forall i: nat | i < |seats| ensures seats[i].id !in busy <==> SeatMap(active, seats, leg)[i].available {
      assert SeatFree(active, seats[i].id, leg) <==> seats[i].id !in busy;
    }
    assert OutsideBusy(seats, travelClass, busy)
        == AvailableReserved(SeatMap(active, seats, leg), seats, travelClass);
  }

  /** The classes that have reserved seats, in the order given. */
  function Offered(seats: seq<Seat>, classes: seq<TravelClass>): (offered: seq<TravelClass>)
    ensures forall k :: k in offered <==> k in classes && HasReserved(seats, k)
  {
    if classes == [] then
      []
    else
      var n := |classes| - 1;
      assert classes == classes[..n] + [classes[n]];
      Offered(seats, classes[..n]) + if HasReserved(seats, classes[n]) then [classes[n]] else []
  }

  /** The option agrees with the seat map and with the quote for its class. */
  ghost predicate Truthful(c: Context, holds: seq<Hold>, trip: Trip, leg: Leg, option: ClassOption)
    requires ValidLeg(trip, leg)
  {
    var views := SeatMap(Select(holds, TripActive(trip.id)), trip.seats, leg);
    && option.freeSeats == |AvailableReserved(views, trip.seats, option.travelClass)|
    && PriceLeg(c, holds, trip, leg, option.travelClass) == Ok(option.fare)
  }

  function ClassesOf(options: seq<ClassOption>): (classes: seq<TravelClass>)
    ensures |classes| == |options| && forall i :: 0 <= i < |options| ==> classes[i] == options[i].travelClass
  {
    seq(|options|, i requires 0 <= i < |options| => options[i].travelClass)
  }

  /** Whatever a search lists for a train: its classes are those with reserved seats, each once
      per mention and in order; each free count is the number of seats the seat map shows
      available in that class at the same moment, and each fare is the quote. */
  lemma {:induction false} SearchMatchesSeatMap(c: Context, holds: seq<Hold>, trip: Trip, leg: Leg,
                                                classes: seq<TravelClass>)
    requires ValidLeg(trip, leg) && ClassOptions(c, holds, trip, leg, classes).Ok?
    ensures ClassesOf(ClassOptions(c, holds, trip, leg, classes).value) == Offered(trip.seats, classes)
    ensures forall option :: option in ClassOptions(c, holds, trip, leg, classes).value ==>
              Truthful(c, holds, trip, leg, option)
  {
    if classes != [] {
      var n := |classes| - 1;
      var offer := ClassOffer(c, holds, trip, leg, classes[n]);
      assert ClassOffers(c, holds, trip, leg, classes)[..n] == ClassOffers(c, holds, trip, leg, classes[..n]);
      SearchMatchesSeatMap(c, holds, trip, leg, classes[..n]);
      OfferIsTruthful(c, holds, trip, leg, classes[n]);
    }
  }

  lemma OfferIsTruthful(c: Context, holds: seq<Hold>, trip: Trip, leg: Leg, k: TravelClass)
    requires ValidLeg(trip, leg)
    ensures var offer := ClassOffer(c, holds, trip, leg, k);
            && (offer == Ok(None) <==> !HasReserved(trip.seats, k))
            && (offer.Ok? && offer.value.Some? ==>
                  offer.value.value.travelClass == k && Truthful(c, holds, trip, leg, offer.value.value))
  {
    FreeCountsAgree(holds, trip.id, trip.seats, leg, k);
  }

  // ---- impact_report ---------------------------------------------------------------------------

  datatype ImpactReport = ImpactReport(activeLegs: nat, seatsUsed: nat, seatKmReclaimed: real)

  ghost predicate LegsOnLine(active: seq<Hold>, stations: seq<Station>) {
    forall h :: h in active ==> OnLine(stations, h.leg.origin) && OnLine(stations, h.leg.dest)
  }

  /** What the report says of a trip: it needs a line, and every active booking to run on it. */
  ghost function Impact(active: seq<Hold>, stations: seq<Station>): Outcome<ImpactReport> {
    if stations == [] then
      Err(BadConfig)
    else if !LegsOnLine(active, stations) then
      Err(LookupFailed)
    else
      assert forall l :: l in LegsOf(active) ==> exists h :: h in active && h.leg == l;
      Ok(ImpactReport(|active|, MaxDepth(LegsOf(active)),
                      ImpactSeatKm(LegsOf(active), KmIndex(stations), RouteKm(stations))))
  }

  lemma OffLineLegs(active: seq<Hold>, stations: seq<Station>)
    ensures LegsOnLine(active, stations) <==>
            forall l :: l in LegsOf(active) ==> OnLine(stations, l.origin) && OnLine(stations, l.dest)
  {
    forall h | h in active ensures h.leg in LegsOf(active) {
      var i :| 0 <= i < |active| && active[i] == h;
      assert LegsOf(active)[i] == h.leg;
    }
    assert forall l :: l in LegsOf(active) ==> exists h :: h in active && h.leg == l;
  }

  /** Segment resale never reports a loss against whole-journey booking. */
  lemma ImpactIsNonNegative(active: seq<Hold>, stations: seq<Station>)
    requires Impact(active, stations).Ok?
    ensures 0.0 <= Impact(active, stations).value.seatKmReclaimed
  {
    forall l | l in LegsOf(active)
      ensures OnLine(stations, l.origin) && OnLine(stations, l.dest)
      ensures DistanceKm(l, KmIndex(stations)) <= RouteKm(stations)
    {
      var i :| 0 <= i < |active| && LegsOf(active)[i] == l;
      assert active[i] in active;
      LegsFitTheRoute(stations, l);
    }
    ReclaimedIsNonNegative(LegsOf(active), KmIndex(stations), RouteKm(stations));
  }

  lemma LegsOfMore(found: seq<Hold>, h: Hold)
    ensures LegsOf(found + [h]) == LegsOf(found) + [h.leg]
  {
  }

  /** For legs on the line, what the report adds up. */
  lemma ReportedSeatKm(active: seq<Hold>, stations: seq<Station>)
    requires Impact(active, stations).Ok?
    ensures forall l :: l in LegsOf(active) ==> l.origin in KmIndex(stations) && l.dest in KmIndex(stations)
    ensures Impact(active, stations).value.activeLegs == |active|
    ensures Impact(active, stations).value.seatKmReclaimed
            == ImpactSeatKm(LegsOf(active), KmIndex(stations), RouteKm(stations))
  {
    OffLineLegs(active, stations);
  }

  lemma OnLineParts(active: seq<Hold>, h: Hold, stations: seq<Station>)
    requires LegsOnLine(active + [h], stations)
    ensures LegsOnLine(active, stations) && OnLine(stations, h.leg.origin) && OnLine(stations, h.leg.dest)
  {
    assert h in active + [h] && forall g :: g in active ==> g in active + [h];
  }

  lemma StillOnLine(active: seq<Hold>, h: Hold, stations: seq<Station>)
    requires Impact(active + [h], stations).Ok?
    ensures Impact(active, stations).Ok? && OnLine(stations, h.leg.origin) && OnLine(stations, h.leg.dest)
  {
    OnLineParts(active, h, stations);
  }

  lemma RouteIs(stations: seq<Station>, far: Station, near: Station)
    requires far in stations && near in stations && forall s :: s in stations ==> near.km <= s.km <= far.km
    ensures RouteKm(stations) == far.km - near.km
  {
    RouteSpansTheLine(stations);
  }

  /** One more active booking adds one leg, and as many seat-km as the line is long from end to
      end less the length of that leg; without bookings there is nothing to report. */
  lemma OneMoreBookingReported(active: seq<Hold>, h: Hold, stations: seq<Station>, far: Station, near: Station,
                               board: nat, leave: nat)
    requires Impact(active + [h], stations).Ok?
    requires far in stations && near in stations && forall s :: s in stations ==> near.km <= s.km <= far.km
    requires LastAt(stations, board) && stations[board].seq_no == h.leg.origin
    requires LastAt(stations, leave) && stations[leave].seq_no == h.leg.dest
    ensures Impact(active, stations).Ok?
    ensures var before, after := Impact(active, stations).value, Impact(active + [h], stations).value;
            && after.activeLegs == before.activeLegs + 1
            && after.seatKmReclaimed
               == before.seatKmReclaimed + (far.km - near.km) - (stations[leave].km - stations[board].km)
  {
    StillOnLine(active, h, stations);
    ReportedSeatKm(active, stations);
    ReportedSeatKm(active + [h], stations);
    LegsOfMore(active, h);
    RouteIs(stations, far, near);
    ReclaimedOneMore(LegsOf(active), h.leg, KmIndex(stations), RouteKm(stations));
  }

  lemma NothingToReport(stations: seq<Station>)
    requires stations != []
    ensures Impact([], stations) == Ok(ImpactReport(0, 0, 0.0))
  {
    assert LegsOf([]) == [];
    DepthZeroMeansNoLegs([]);
  }

  // ---- who is on board -------------------------------------------------------------------------

  /** Held and confirmed bookings of the trip. */
  ghost function AliveOn(holds: seq<Hold>, trip: string): set<nat> {
    set i: nat | i < |holds| && holds[i].trip == trip && (holds[i].status == Held || holds[i].status == Confirmed)
  }

  /** Those of them that are on board between station p and the next. */
  ghost function OnBoardAt(holds: seq<Hold>, trip: string, p: int): set<nat> {
    set i: nat | i < |holds| && holds[i].trip == trip && (holds[i].status == Held || holds[i].status == Confirmed)
                 && holds[i].leg.origin <= p < holds[i].leg.dest
  }

  lemma OnBoardOneMore(holds: seq<Hold>, h: Hold, trip: string, p: int)
    ensures |OnBoardAt(holds + [h], trip, p)|
            == |OnBoardAt(holds, trip, p)| + if Matches(TripActive(trip), h) && h.leg.Contains(p) then 1 else 0
  {
    if Matches(TripActive(trip), h) && h.leg.Contains(p) {
      assert OnBoardAt(holds + [h], trip, p) == OnBoardAt(holds, trip, p) + {|holds|};
    } else {
      assert OnBoardAt(holds + [h], trip, p) == OnBoardAt(holds, trip, p);
    }
  }

  /** The depth of the active legs is the number of bookings on board. */
  lemma {:induction false} DepthIsOnBoard(holds: seq<Hold>, trip: string, p: int)
    ensures DepthAt(LegsOf(Select(holds, TripActive(trip))), p) == |OnBoardAt(holds, trip, p)|
  {
    if holds == [] {
      assert OnBoardAt(holds, trip, p) == {};
      assert Holding([], p) == {};
    } else {
      var before, last := holds[..|holds| - 1], holds[|holds| - 1];
      var found := Select(before, TripActive(trip));
      assert holds == before + [last];
      DepthIsOnBoard(before, trip, p);
      OnBoardOneMore(before, last, trip, p);
      SelectOfMore(before, last, TripActive(trip));
      if Matches(TripActive(trip), last) {
        LegsOfMore(found, last);
        DepthOfMore(LegsOf(found), last.leg, p);
      } else {
        assert found + [] == found;
      }
    }
  }

  lemma AliveAreSelected(holds: seq<Hold>, trip: string)
    ensures |AliveOn(holds, trip)| == |Select(holds, TripActive(trip))|
  {
    SelectCounts(holds, TripActive(trip));
    assert AliveOn(holds, trip) == MatchesAt(holds, TripActive(trip));
  }

  function SeatsOf(holds: seq<Hold>): (seats: seq<string>)
    ensures |seats| == |holds| && forall i :: 0 <= i < |holds| ==> seats[i] == holds[i].seat
  {
    seq(|holds|, i requires 0 <= i < |holds| => holds[i].seat)
  }

  lemma {:induction false} SelectionKeepsApart(holds: seq<Hold>, q: Query)
    requires NoDoubleBooking(holds)
    ensures NoDoubleBooking(Select(holds, q))
  {
    if holds != [] {
      var before, last := holds[..|holds| - 1], holds[|holds| - 1];
      SelectionKeepsApart(before, q);
      if Matches(q, last) {
        forall i | 0 <= i < |Select(before, q)| ensures !Conflict(Select(before, q)[i], last) {
          assert Select(before, q)[i] in before;
          var k :| 0 <= k < |before| && before[k] == Select(before, q)[i];
          assert !Conflict(holds[k], holds[|holds| - 1]);
        }
      }
    }
  }

  /** Capacity bridge: the seats a trip's active bookings could be packed onto are no more than
      the seats they are booked on, because the booked seat ids already colour the legs; and
      those are seats of the trip. */
  lemma PackedSeatsFitTheTrip(holds: seq<Hold>, trip: Trip)
    requires NoDoubleBooking(holds)
    requires forall h :: h in holds && Matches(TripActive(trip.id), h) ==> h.seat in SeatIds(trip)
    ensures var active := Select(holds, TripActive(trip.id));
            MaxDepth(LegsOf(active)) <= |ColoursUsed(SeatsOf(active))| <= |trip.seats|
  {
    var active := Select(holds, TripActive(trip.id));
    SelectionKeepsApart(holds, TripActive(trip.id));
    assert ProperColouring(LegsOf(active), SeatsOf(active)) by {
      forall i, j | 0 <= i < j < |active| && LegsOf(active)[i].Overlaps(LegsOf(active)[j])
        ensures SeatsOf(active)[i] != SeatsOf(active)[j]
      {
        assert active[i] in active && active[j] in active && !Conflict(active[i], active[j]);
      }
    }
    NoColouringBeatsDepth(LegsOf(active), SeatsOf(active));
    SeatIdsBound(trip.seats, ColoursUsed(SeatsOf(active)));
  }
}
