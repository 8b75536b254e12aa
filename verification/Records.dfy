/** The records that cross the repository port, and the booking status machine. */
module Records {
  import opened Outcomes
  import opened Stations

  datatype Status = Held | Confirmed | Cancelled | Expired | Standing

  datatype CoachType = Reserved | Unreserved

  datatype TravelClass = First | Second | Third

  datatype Seat = Seat(id: string, coach: string, kind: CoachType, travelClass: TravelClass)

  datatype Stop = Stop(stationSeq: int, arriveMin: Option<int>, departMin: Option<int>)

  datatype Trip = Trip(id: string, stations: seq<Station>, stops: seq<Stop>, seats: seq<Seat>)

  datatype Hold = Hold(
    id: string, reference: string, trip: string, seat: string, leg: Leg,
    passenger: string, passengerName: string, travelClass: TravelClass,
    status: Status, fare: int, heldUntil: int, createdAt: int)

  /** Statuses that occupy a seat: the scope of the overlap rule. */
  predicate Active(s: Status) {
    s == Held || s == Confirmed
  }

  predicate Terminal(s: Status) {
    s == Cancelled || s == Expired
  }

  /** Statuses that only a paid ticket has. */
  predicate PaidFor(s: Status) {
    s == Confirmed || s == Standing
  }

  // ---- the status machine ----------------------------------------------------------------

  datatype Event = Confirm | Cancel | Expire

  const TRANSITIONS: map<(Status, Event), Status> := map[
    (Held, Confirm) := Confirmed,
    (Held, Cancel) := Cancelled,
    (Held, Expire) := Expired,
    (Confirmed, Cancel) := Cancelled,
    (Standing, Cancel) := Cancelled
  ]

  predicate CanApply(current: Status, event: Event) {
    (current, event) in TRANSITIONS
  }

  function Apply(current: Status, event: Event): Outcome<Status> {
    if CanApply(current, event) then Ok(TRANSITIONS[(current, event)]) else Err(IllegalTransition)
  }

  ghost predicate Successor(a: Status, b: Status) {
    exists event :: Apply(a, event) == Ok(b)
  }

  /** How many transitions a booking in this status may already have gone through, at most. */
  function Rank(s: Status): nat {
    match s
    case Held => 0
    case Confirmed => 1
    case Standing => 1
    case Cancelled => 2
    case Expired => 2
  }

  /** Every transition climbs, none re-enters an active status from outside, none leaves a
      terminal one, and every live status has somewhere to go. */
  lemma TransitionsOnlyClimb(a: Status, b: Status)
    ensures Successor(a, b) ==> Rank(a) < Rank(b) <= 2
    ensures Successor(a, b) && Active(b) ==> a == Held && b == Confirmed
    ensures Successor(a, b) ==> b != Held && b != Standing
    ensures Terminal(a) <==> forall c :: !Successor(a, c)
    ensures Successor(a, b) <==> (a == Held && b in {Confirmed, Cancelled, Expired})
                                 || (a in {Confirmed, Standing} && b == Cancelled)
  {
    assert Apply(Held, Confirm) == Ok(Confirmed) && Apply(Held, Expire) == Ok(Expired);
    assert Apply(Held, Cancel) == Apply(Confirmed, Cancel) == Apply(Standing, Cancel) == Ok(Cancelled);
    assert !Terminal(a) ==> Successor(a, Cancelled);
    forall e: Event, c: Status | Apply(a, e) == Ok(c)
      ensures Rank(a) < Rank(c) <= 2 && !Terminal(a) && c != Held && c != Standing
      ensures Active(c) ==> a == Held && c == Confirmed
      ensures a == Held || c == Cancelled
    {
      match a { case Held => case Confirmed => case Standing => case Cancelled => case Expired => }
    }
  }
}
