/** The ticket receipt, built after the booking has been committed. */
module Receipts {
  import opened Outcomes
  import opened Stations
  import opened Records
  import opened Support
  import opened Seating
  import opened Views

  /** A seat frees for the standing passenger at this station. */
  datatype Advice = Advice(afterSeq: int, afterStation: string, seat: string)

  datatype Receipt = Receipt(
    booking: Hold, trip: string, origin: Station, dest: Station, depart: int, arrive: int,
    seat: Option<Seat>, standing: Option<Advice>)

  /** The i-th station is the first one listed at this position. */
  predicate FirstAt(stations: seq<Station>, p: int, i: int) {
    0 <= i < |stations| && stations[i].seq_no == p && forall j :: 0 <= j < i ==> stations[j].seq_no != p
  }

  function StationAt(stations: seq<Station>, p: int): (found: Outcome<Station>)
    ensures found.Ok? <==> OnLine(stations, p)
    ensures found.Ok? ==> exists i :: FirstAt(stations, p, i) && found.value == stations[i]
    ensures found.Err? ==> found.error == LookupFailed
  {
    if stations == [] then Err(LookupFailed)
    else if stations[0].seq_no == p then
      assert FirstAt(stations, p, 0);
      Ok(stations[0])
    else
      assert stations == [stations[0]] + stations[1..];
      assert forall i :: FirstAt(stations[1..], p, i) ==> FirstAt(stations, p, i + 1);
      StationAt(stations[1..], p)
  }

  function AdviceFor(trip: Trip, offer: SeatOffer, pool: seq<Seat>): Outcome<Advice> {
    var station := StationAt(trip.stations, offer.boardSeq);
    if station.Err? then Err(station.error)
    else if |pool| <= offer.seatIndex then Err(LookupFailed)
    else Ok(Advice(offer.boardSeq, station.value.name, pool[offer.seatIndex].id))
  }

  /** Raises when the train does not call at both ends, or when a station or seat is not found. */
  function BuildReceipt(hold: Hold, trip: Trip, seat: Option<Seat>, offer: Option<SeatOffer>, pool: seq<Seat>)
    : (receipt: Outcome<Receipt>)
  {
    if !Serves(trip.stops, hold.leg) then
      Err(InvalidLeg)
    else
      var depart, arrive := StopAt(trip.stops, hold.leg.origin).value, StopAt(trip.stops, hold.leg.dest).value;
      var origin, dest := StationAt(trip.stations, hold.leg.origin), StationAt(trip.stations, hold.leg.dest);
      if origin.Err? then Err(origin.error)
      else if dest.Err? then Err(dest.error)
      else if offer.None? then
        Ok(Receipt(hold, trip.id, origin.value, dest.value, depart.departMin.value, arrive.arriveMin.value, seat, None))
      else
        var advice := AdviceFor(trip, offer.value, pool);
        if advice.Err? then Err(advice.error)
        else Ok(Receipt(hold, trip.id, origin.value, dest.value, depart.departMin.value, arrive.arriveMin.value,
                        seat, Some(advice.value)))
  }

  /** The train calls at both ends: it departs from its first stop at the origin and arrives at
      its first stop at the destination, at these times. */
  ghost predicate Calls(trip: Trip, leg: Leg, depart: int, arrive: int) {
    && (exists i :: FirstStop(trip.stops, leg.origin, i) && trip.stops[i].departMin == Some(depart))
    && (exists j :: FirstStop(trip.stops, leg.dest, j) && trip.stops[j].arriveMin == Some(arrive))
  }

  lemma FirstStopIsOne(stops: seq<Stop>, p: int, i: int, j: int)
    requires FirstStop(stops, p, i) && FirstStop(stops, p, j)
    ensures i == j
  {
  }

  lemma CallsMeansServed(trip: Trip, leg: Leg, depart: int, arrive: int)
    requires Calls(trip, leg, depart, arrive)
    ensures Serves(trip.stops, leg)
  {
    var i :| FirstStop(trip.stops, leg.origin, i) && trip.stops[i].departMin == Some(depart);
    var j :| FirstStop(trip.stops, leg.dest, j) && trip.stops[j].arriveMin == Some(arrive);
    assert trip.stops[i] in trip.stops && trip.stops[j] in trip.stops;
    var i' :| FirstStop(trip.stops, leg.origin, i') && StopAt(trip.stops, leg.origin).value == trip.stops[i'];
    var j' :| FirstStop(trip.stops, leg.dest, j') && StopAt(trip.stops, leg.dest).value == trip.stops[j'];
    FirstStopIsOne(trip.stops, leg.origin, i, i');
    FirstStopIsOne(trip.stops, leg.dest, j, j');
  }

  lemma ServedMeansCalls(trip: Trip, leg: Leg)
    ensures Serves(trip.stops, leg) <==> exists depart, arrive :: Calls(trip, leg, depart, arrive)
    ensures Serves(trip.stops, leg) ==>
              Calls(trip, leg, StopAt(trip.stops, leg.origin).value.departMin.value,
                    StopAt(trip.stops, leg.dest).value.arriveMin.value)
  {
    if Serves(trip.stops, leg) {
      assert Calls(trip, leg, StopAt(trip.stops, leg.origin).value.departMin.value,
                   StopAt(trip.stops, leg.dest).value.arriveMin.value);
    }
    forall depart, arrive | Calls(trip, leg, depart, arrive) ensures Serves(trip.stops, leg) {
      CallsMeansServed(trip, leg, depart, arrive);
    }
  }

  /** What a receipt says: the booking and seat it is for, the first stations listed at the leg's
      ends, the times of the train's calls there, and the advice if there is an offer. */
  ghost predicate Tells(receipt: Receipt, hold: Hold, trip: Trip, seat: Option<Seat>, offer: Option<SeatOffer>,
                        pool: seq<Seat>) {
    && receipt.booking == hold && receipt.trip == trip.id && receipt.seat == seat
    && (exists i :: FirstAt(trip.stations, hold.leg.origin, i) && receipt.origin == trip.stations[i])
    && (exists i :: FirstAt(trip.stations, hold.leg.dest, i) && receipt.dest == trip.stations[i])
    && Calls(trip, hold.leg, receipt.depart, receipt.arrive)
    && (receipt.standing.Some? <==> offer.Some?)
    && (offer.Some? ==>
          var advice := receipt.standing.value;
          && offer.value.seatIndex < |pool| && advice.seat == pool[offer.value.seatIndex].id
          && advice.afterSeq == offer.value.boardSeq
          && exists i :: FirstAt(trip.stations, advice.afterSeq, i) && advice.afterStation == trip.stations[i].name)
  }

  /** For a leg that was validated and advice that is sound, the receipt is printed exactly when
      the train calls at both ends, and tells what it should; nothing else can go wrong. */
  lemma PrintedIffServed(hold: Hold, trip: Trip, seat: Option<Seat>, offer: Option<SeatOffer>, pool: seq<Seat>)
    requires ValidLeg(trip, hold.leg)
    requires offer.Some? ==> OnLine(trip.stations, offer.value.boardSeq) && offer.value.seatIndex < |pool|
    ensures var receipt := BuildReceipt(hold, trip, seat, offer, pool);
            && (receipt.Ok? <==> exists depart, arrive :: Calls(trip, hold.leg, depart, arrive))
            && (receipt.Ok? <==> Serves(trip.stops, hold.leg))
            && (receipt.Err? ==> receipt.error == InvalidLeg)
            && (receipt.Ok? ==> Tells(receipt.value, hold, trip, seat, offer, pool))
  {
    ServedMeansCalls(trip, hold.leg);
  }
}
