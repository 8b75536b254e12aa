/** The anti-tout gate and the pure policy predicates it is meant to agree with. */
module Policy {
  import opened Outcomes
  import opened Records
  import opened Bookings

  datatype Config = Config(
    holdTtl: int, maxSeatsPerPassenger: int, velocityWindow: int, maxBookingsPerWindow: int,
    abuseThreshold: real, standingCapacity: int,
    multFirst: real, multSecond: real, multThird: real)

  function ClassMult(config: Config, travelClass: TravelClass): real {
    match travelClass
    case First => config.multFirst
    case Second => config.multSecond
    case Third => config.multThird
  }

  /** Seat cap first, then velocity, then the abuse score, which is an input. */
  function GateVerdict(config: Config, active: nat, recent: nat, score: real): Option<Error> {
    if active >= config.maxSeatsPerPassenger then Some(SeatCapExceeded)
    else if recent >= config.maxBookingsPerWindow then Some(VelocityExceeded)
    else if score >= config.abuseThreshold then Some(AbuseSuspected)
    else None
  }

  /** Why the gate refuses this passenger now, if it does. */
  function GateRefusal(config: Config, holds: seq<Hold>, trip: string, passenger: string, now: int, score: real)
    : Option<Error>
  {
    var active := |Select(holds, PassengerActive(trip, passenger))|;
    var recent := |Select(holds, PassengerRecent(trip, passenger, now - config.velocityWindow))|;
    GateVerdict(config, active, recent, score)
  }

  /** The gate, told by counts of table positions: the first of seat cap, velocity over the
      trailing window and abuse score that is reached refuses the passenger. */
  lemma GateByCounts(config: Config, holds: seq<Hold>, trip: string, passenger: string, now: int, score: real)
    ensures var refusal := GateRefusal(config, holds, trip, passenger, now, score);
            var booked := |BookedBy(holds, trip, passenger)|;
            var recent := |BookedAfter(holds, trip, passenger, now - config.velocityWindow)|;
            && (refusal == Some(SeatCapExceeded) <==> config.maxSeatsPerPassenger <= booked)
            && (refusal == Some(VelocityExceeded) <==>
                  booked < config.maxSeatsPerPassenger && config.maxBookingsPerWindow <= recent)
            && (refusal == Some(AbuseSuspected) <==>
                  booked < config.maxSeatsPerPassenger && recent < config.maxBookingsPerWindow
                  && config.abuseThreshold <= score)
            && (refusal == None <==>
                  booked < config.maxSeatsPerPassenger && recent < config.maxBookingsPerWindow
                  && score < config.abuseThreshold)
  {
    BookedByIsSelected(holds, trip, passenger);
    BookedAfterIsSelected(holds, trip, passenger, now - config.velocityWindow);
  }

  // ---- the pure predicates ------------------------------------------------------------------

  function WithinSeatCap(activeCount: int, requested: int, cap: int): (verdict: Outcome<bool>)
    ensures verdict.Err? <==> requested < 1 || cap < 0 || activeCount < 0
  {
    if requested < 1 || cap < 0 || activeCount < 0 then Err(BadConfig) else Ok(activeCount + requested <= cap)
  }

  predicate MayTakeOneMore(activeCount: int, cap: int) {
    WithinSeatCap(activeCount, 1, cap) == Ok(true)
  }

  /** Asking for several seats is allowed exactly when asking for them one after another is. */
  lemma SeatCapOneByOne(activeCount: int, requested: int, cap: int)
    requires 1 <= requested && 0 <= cap && 0 <= activeCount
    ensures WithinSeatCap(activeCount, requested, cap) == Ok(true) <==>
            forall n :: activeCount <= n < activeCount + requested ==> MayTakeOneMore(n, cap)
  {
    assert MayTakeOneMore(activeCount + requested - 1, cap) <==> activeCount + requested <= cap;
  }

  function CreationTimes(holds: seq<Hold>): (times: seq<int>)
    ensures |times| == |holds| && forall i :: 0 <= i < |holds| ==> times[i] == holds[i].createdAt
  {
    seq(|holds|, i requires 0 <= i < |holds| => holds[i].createdAt)
  }

  function CountWithin(times: seq<int>, after: int, upTo: int): nat {
    if times == [] then
      0
    else
      CountWithin(times[..|times| - 1], after, upTo) + if after < times[|times| - 1] <= upTo then 1 else 0
  }

  function WithinVelocity(bookingTimes: seq<int>, now: int, window: int, limit: int): (verdict: Outcome<bool>)
    ensures verdict.Err? <==> window <= 0 || limit < 0
  {
    if window <= 0 || limit < 0 then Err(BadConfig) else Ok(CountWithin(bookingTimes, now - window, now) < limit)
  }

  lemma CountOfMore(times: seq<int>, t: int, after: int, upTo: int)
    ensures CountWithin(times + [t], after, upTo)
            == CountWithin(times, after, upTo) + if after < t <= upTo then 1 else 0
  {
    assert (times + [t])[..|times|] == times;
  }

  lemma OneMoreTime(active: seq<Hold>, last: Hold, after: int, now: int)
    ensures CountWithin(CreationTimes(active + [last]), after, now)
            == CountWithin(CreationTimes(active), after, now) + if after < last.createdAt <= now then 1 else 0
  {
    assert CreationTimes(active + [last]) == CreationTimes(active) + [last.createdAt];
    CountOfMore(CreationTimes(active), last.createdAt, after, now);
  }

  lemma {:induction false} RecentIsCounted(holds: seq<Hold>, trip: string, passenger: string, after: int, now: int)
    requires forall h :: h in holds ==> h.createdAt <= now
    ensures CountWithin(CreationTimes(Select(holds, PassengerActive(trip, passenger))), after, now)
            == |Select(holds, PassengerRecent(trip, passenger, after))|
  {
    if holds == [] {
    } else {
      var before, last := holds[..|holds| - 1], holds[|holds| - 1];
      assert holds == before + [last];
      RecentIsCounted(before, trip, passenger, after, now);
      var wide, narrow := PassengerActive(trip, passenger), PassengerRecent(trip, passenger, after);
      SelectOfMore(before, last, wide);
      SelectedOfMore(before, last, narrow);
      if Matches(wide, last) {
        OneMoreTime(Select(before, wide), last, after, now);
      }
    }
  }

  /** Wherever the pure predicates are defined, the gate passes exactly when both allow one
      more booking and the score is below the cut-off. */
  lemma GateAgreesWithPolicy(config: Config, holds: seq<Hold>, trip: string, passenger: string, now: int, score: real)
    requires 0 <= config.maxSeatsPerPassenger && 0 < config.velocityWindow && 0 <= config.maxBookingsPerWindow
    requires forall h :: h in holds ==> h.createdAt <= now
    ensures var cap := WithinSeatCap(|Select(holds, PassengerActive(trip, passenger))|, 1, config.maxSeatsPerPassenger);
            var velocity := WithinVelocity(CreationTimes(Select(holds, PassengerActive(trip, passenger))), now,
                                           config.velocityWindow, config.maxBookingsPerWindow);
            && cap.Ok? && velocity.Ok?
            && (GateRefusal(config, holds, trip, passenger, now, score).None? <==>
                  cap.value && velocity.value && score < config.abuseThreshold)
  {
    GatePasses(config, holds, trip, passenger, now, score);
    VelocityIsCounted(config, holds, trip, passenger, now);
  }

  lemma VelocityIsCounted(config: Config, holds: seq<Hold>, trip: string, passenger: string, now: int)
    requires 0 < config.velocityWindow && 0 <= config.maxBookingsPerWindow
    requires forall h :: h in holds ==> h.createdAt <= now
    ensures WithinVelocity(CreationTimes(Select(holds, PassengerActive(trip, passenger))), now,
                           config.velocityWindow, config.maxBookingsPerWindow)
            == Ok(|Select(holds, PassengerRecent(trip, passenger, now - config.velocityWindow))|
                  < config.maxBookingsPerWindow)
  {
    var times := CreationTimes(Select(holds, PassengerActive(trip, passenger)));
    RecentIsCounted(holds, trip, passenger, now - config.velocityWindow, now);
    VelocityByCount(times, now, config.velocityWindow, config.maxBookingsPerWindow,
                    |Select(holds, PassengerRecent(trip, passenger, now - config.velocityWindow))|);
  }

  lemma VelocityByCount(times: seq<int>, now: int, window: int, limit: int, count: nat)
    requires 0 < window && 0 <= limit && CountWithin(times, now - window, now) == count
    ensures WithinVelocity(times, now, window, limit) == Ok(count < limit)
  {
  }

  lemma GatePasses(config: Config, holds: seq<Hold>, trip: string, passenger: string, now: int, score: real)
    ensures GateRefusal(config, holds, trip, passenger, now, score).None? <==>
              && |Select(holds, PassengerActive(trip, passenger))| < config.maxSeatsPerPassenger
              && |Select(holds, PassengerRecent(trip, passenger, now - config.velocityWindow))|
                 < config.maxBookingsPerWindow
              && score < config.abuseThreshold
  {
  }
}
