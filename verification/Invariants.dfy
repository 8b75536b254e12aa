/** What every transaction keeps. Each step either lets existing bookings advance along the
    status machine, or retires overdue holds and appends one admitted booking. */
module Invariants {
  import opened Outcomes
  import opened Stations
  import opened Records
  import opened Bookings
  import opened Policy
  import opened Support
  import opened Seating
  import opened Transactions

  /** A record that was checked before it was stored: its trip exists, its leg runs between
      stations of that trip, an active one sits on a seat of that trip, a standing one on none. */
  ghost predicate Sited(c: Context, now: int, h: Hold) {
    && h.trip in c.trips
    && ValidLeg(c.trips[h.trip], h.leg)
    && (Active(h.status) ==> h.seat in SeatIds(c.trips[h.trip]))
    && (h.status == Standing ==> h.seat == "")
    && h.createdAt <= now
  }

  ghost predicate Sound(c: Context, w: World) {
    && Keyed(w.holds)
    && NoDoubleBooking(w.holds)
    && (forall h :: h in w.holds ==> Sited(c, w.clock, h))
    && (forall h, n: nat {:trigger h in w.holds, IdOf(c, n)} :: h in w.holds && w.ids <= n ==> h.id != IdOf(c, n))
  }

  /** A booking that may be appended to a table of unexpired records. */
  ghost predicate Admitted(c: Context, now: int, ids: nat, due: seq<Hold>, h: Hold) {
    && h.id == IdOf(c, ids)
    && h.createdAt == now
    && Sited(c, now, h)
    && (Active(h.status) || h.status == Standing)
    && AddHold(due, h) == Ok(due + [h])
    && |Select(due, PassengerActive(h.trip, h.passenger))| < c.config.maxSeatsPerPassenger
    && |Select(due, PassengerRecent(h.trip, h.passenger, now - c.config.velocityWindow))|
       < c.config.maxBookingsPerWindow
    && (h.status == Standing ==> StandingRoom(c, due, h.trip, h.travelClass))
  }

  ghost predicate Quiet(w: World, w': World) {
    Progress(w.holds, w'.holds) && w.ids <= w'.ids && w.clock <= w'.clock
  }

  ghost predicate Inserts(c: Context, w: World, w': World, h: Hold) {
    var due := ExpireDue(w.holds, w.clock);
    w'.holds == due + [h] && w'.ids == w.ids + 1 && w'.clock == w.clock && Admitted(c, w.clock, w.ids, due, h)
  }

  /** The only two ways a transaction can change the world's bookings. */
  ghost predicate Moves(c: Context, w: World, w': World) {
    Quiet(w, w') || exists h :: Inserts(c, w, w', h)
  }

  // ---- every use case moves this way --------------------------------------------------------

  lemma UnchangedIsProgress(holds: seq<Hold>)
    ensures Progress(holds, holds)
  {
  }

  lemma FreshIdNotStored(c: Context, w: World)
    requires Sound(c, w)
    ensures Lookup(ExpireDue(w.holds, w.clock), IdOf(c, w.ids)).None?
  {
    var due := ExpireDue(w.holds, w.clock);
    forall i | 0 <= i < |due| ensures due[i].id != IdOf(c, w.ids) {
      assert w.holds[i] in w.holds;
    }
  }

  predicate HoldSucceeds(c: Context, w: World, r: HoldRequest) {
    Replayed(w.holds, r.reference).None? && HoldSeat(c, w, r).1.Ok?
  }

  lemma PlaceHoldElseUnchanged(c: Context, w: World, due: seq<Hold>, r: HoldRequest, travelClass: TravelClass,
                               fare: Outcome<int>)
    ensures var (w', outcome) := PlaceHold(c, w, due, r, travelClass, fare);
            && (outcome.Err? ==> w'.holds == w.holds)
            && w'.charges == w.charges && w'.clock == w.clock && w.ids <= w'.ids && w.refs <= w'.refs
  {
  }

  lemma HoldSeatElseUnchanged(c: Context, w: World, r: HoldRequest)
    ensures !HoldSucceeds(c, w, r) ==> HoldSeat(c, w, r).0.holds == w.holds
    ensures var w' := HoldSeat(c, w, r).0;
            w'.charges == w.charges && w'.clock == w.clock && w.ids <= w'.ids && w.refs <= w'.refs
  {
    if Replayed(w.holds, r.reference).None? {
      var due := ExpireDue(w.holds, w.clock);
      if HoldRefusal(c, due, w.clock, r).None? {
        var travelClass := SeatOn(c.trips[r.trip], r.seat).value.travelClass;
        PlaceHoldElseUnchanged(c, w, due, r, travelClass, PriceLeg(c, due, c.trips[r.trip], r.leg, travelClass));
      }
    }
  }

  lemma HoldSeatShape(c: Context, w: World, r: HoldRequest)
    requires HoldSucceeds(c, w, r)
    ensures var (w', outcome) := HoldSeat(c, w, r);
            var due := ExpireDue(w.holds, w.clock);
            && HoldRefusal(c, due, w.clock, r).None?
            && outcome.value == HoldDraft(c, w, r, outcome.value.travelClass, outcome.value.fare)
            && AddHold(due, outcome.value) == Ok(w'.holds)
            && w' == World(w'.holds, w.clock, w.ids + 1, RefsAfter(r.reference, w.refs), w.charges)
  {
  }

  lemma HoldDraftIsAdmitted(c: Context, w: World, due: seq<Hold>, r: HoldRequest, hold: Hold)
    requires HoldRefusal(c, due, w.clock, r).None?
    requires hold == HoldDraft(c, w, r, hold.travelClass, hold.fare)
    requires AddHold(due, hold) == Ok(due + [hold])
    ensures Admitted(c, w.clock, w.ids, due, hold)
  {
    GatePasses(c.config, due, r.trip, r.passenger, w.clock, r.score);
  }

  lemma HoldSeatInserts(c: Context, w: World, r: HoldRequest)
    requires WellFormed(c) && Sound(c, w) && HoldSucceeds(c, w, r)
    ensures Inserts(c, w, HoldSeat(c, w, r).0, HoldSeat(c, w, r).1.value)
    ensures HoldSeat(c, w, r).1.value.status == Held
  {
    HoldSeatShape(c, w, r);
    FreshIdNotStored(c, w);
    HoldDraftIsAdmitted(c, w, ExpireDue(w.holds, w.clock), r, HoldSeat(c, w, r).1.value);
  }

  lemma HoldSeatMoves(c: Context, w: World, r: HoldRequest)
    requires WellFormed(c) && Sound(c, w)
    ensures Moves(c, w, HoldSeat(c, w, r).0)
  {
    UnchangedIsProgress(w.holds);
    HoldSeatElseUnchanged(c, w, r);
    if HoldSucceeds(c, w, r) {
      HoldSeatInserts(c, w, r);
    }
  }

  /** Nothing blocks a ticket for a pool seat that is free over its leg. */
  lemma ChosenSeatIsClear(due: seq<Hold>, trip: string, pool: seq<Seat>, i: nat, ticket: Hold)
    requires i < |pool| && FreeOver(PoolLegs(due, trip, pool)[i], ticket.leg)
    requires ticket.trip == trip && ticket.seat == pool[i].id
    ensures forall e :: e in due ==> !Blocks(e, ticket)
  {
    var found := Select(due, SeatActive(trip, pool[i].id));
    forall e | e in found ensures !e.leg.Overlaps(ticket.leg) {
      var k :| 0 <= k < |found| && found[k] == e;
      assert LegsOf(found)[k] in LegsOf(found);
    }
  }

  /** Nothing blocks a ticket without a seat: active bookings all have one. */
  lemma NothingSitsNowhere(c: Context, w: World, ticket: Hold)
    requires WellFormed(c) && Sound(c, w) && ticket.seat == ""
    ensures forall e :: e in ExpireDue(w.holds, w.clock) ==> !Blocks(e, ticket)
  {
    var due := ExpireDue(w.holds, w.clock);
    forall e | e in due ensures !Blocks(e, ticket) {
      var i :| 0 <= i < |due| && due[i] == e;
      assert w.holds[i] in w.holds;
    }
  }

  /** A seat chosen by best fit is accepted by the insert, and so is a standing ticket. */
  lemma SaleInsertSucceeds(c: Context, w: World, r: SaleRequest, fare: int)
    requires WellFormed(c) && Sound(c, w)
    requires SaleRefusal(c, ExpireDue(w.holds, w.clock), w.clock, r).None?
    ensures var due := ExpireDue(w.holds, w.clock);
            var ticket := SaleDraft(c, w, r, ChosenSeatId(c, due, r), fare);
            AddHold(due, ticket) == Ok(due + [ticket]) && Sited(c, w.clock, ticket)
  {
    var due := ExpireDue(w.holds, w.clock);
    var ticket := SaleDraft(c, w, r, ChosenSeatId(c, due, r), fare);
    var trip := c.trips[r.trip];
    var pool := Pool(trip, r.travelClass);
    var chosen := ChosenSeat(c, due, r);
    FreshIdNotStored(c, w);
    if chosen.Some? {
      assert pool[chosen.value] in pool;
      ChosenSeatIsClear(due, r.trip, pool, chosen.value, ticket);
    } else {
      NothingSitsNowhere(c, w, ticket);
    }
  }

  ghost predicate SaleSucceeds(c: Context, w: World, r: SaleRequest) {
    Replayed(w.holds, r.reference).None? && SellUnreserved(c, w, r).1.Ok?
  }

  lemma SettleElseUnchanged(c: Context, w: World, due: seq<Hold>, r: SaleRequest, fare: int,
                            seat: Option<string>, offer: Option<SeatOffer>)
    ensures var (w', outcome) := Settle(c, w, due, r, fare, seat, offer);
            && (outcome.Err? ==> w'.holds == w.holds)
            && w'.clock == w.clock && w.ids <= w'.ids && w.refs <= w'.refs
  {
  }

  lemma SaleElseUnchanged(c: Context, w: World, r: SaleRequest)
    ensures !SaleSucceeds(c, w, r) ==> SellUnreserved(c, w, r).0.holds == w.holds
    ensures var w' := SellUnreserved(c, w, r).0;
            w'.clock == w.clock && w.ids <= w'.ids && w.refs <= w'.refs
  {
    if Replayed(w.holds, r.reference).None? {
      var due := ExpireDue(w.holds, w.clock);
      if SaleObstacle(c, due, w.clock, r).None? {
        var fare := PriceLeg(c, due, c.trips[r.trip], r.leg, r.travelClass);
        if fare.Ok? {
          SettleElseUnchanged(c, w, due, r, fare.value, ChosenSeatId(c, due, r), StandingOffer(c, due, r));
        }
      }
    }
  }

  /** A sale that meets no obstacle is settled at the quoted fare. */
  lemma SaleIsSettled(c: Context, w: World, r: SaleRequest)
    requires SaleSucceeds(c, w, r)
    ensures var due := ExpireDue(w.holds, w.clock);
            && SaleObstacle(c, due, w.clock, r).None?
            && PriceLeg(c, due, c.trips[r.trip], r.leg, r.travelClass).Ok?
            && SellUnreserved(c, w, r)
               == Settle(c, w, due, r, PriceLeg(c, due, c.trips[r.trip], r.leg, r.travelClass).value,
                         ChosenSeatId(c, due, r), StandingOffer(c, due, r))
  {
  }

  lemma SettleShape(c: Context, w: World, due: seq<Hold>, r: SaleRequest, fare: int,
                    seat: Option<string>, offer: Option<SeatOffer>)
    requires Settle(c, w, due, r, fare, seat, offer).1.Ok?
    ensures var (w', outcome) := Settle(c, w, due, r, fare, seat, offer);
            && outcome.value == Sale(SaleDraft(c, w, r, seat, fare), offer)
            && AddHold(due, outcome.value.ticket) == Ok(w'.holds)
            && w' == World(w'.holds, w.clock, w.ids + 1, RefsAfter(r.reference, w.refs),
                           w.charges + [Charge(outcome.value.ticket.reference, fare, true)])
  {
  }

  lemma SaleShape(c: Context, w: World, r: SaleRequest) returns (fare: int)
    requires SaleSucceeds(c, w, r)
    ensures var (w', outcome) := SellUnreserved(c, w, r);
            var due := ExpireDue(w.holds, w.clock);
            && SaleRefusal(c, due, w.clock, r).None?
            && (ChosenSeat(c, due, r).None? ==> StandingRoom(c, due, r.trip, r.travelClass))
            && outcome.value == Sale(SaleDraft(c, w, r, ChosenSeatId(c, due, r), fare), StandingOffer(c, due, r))
            && AddHold(due, outcome.value.ticket) == Ok(w'.holds)
            && w' == World(w'.holds, w.clock, w.ids + 1, RefsAfter(r.reference, w.refs),
                           w.charges + [Charge(outcome.value.ticket.reference, fare, true)])
  {
    var due := ExpireDue(w.holds, w.clock);
    SaleIsSettled(c, w, r);
    fare := PriceLeg(c, due, c.trips[r.trip], r.leg, r.travelClass).value;
    SettleShape(c, w, due, r, fare, ChosenSeatId(c, due, r), StandingOffer(c, due, r));
  }

  lemma SaleDraftIsAdmitted(c: Context, w: World, due: seq<Hold>, r: SaleRequest, ticket: Hold)
    requires SaleRefusal(c, due, w.clock, r).None?
    requires ticket == SaleDraft(c, w, r, ChosenSeatId(c, due, r), ticket.fare)
    requires ticket.status == Standing ==> StandingRoom(c, due, r.trip, r.travelClass)
    requires AddHold(due, ticket) == Ok(due + [ticket]) && Sited(c, w.clock, ticket)
    ensures Admitted(c, w.clock, w.ids, due, ticket)
  {
    GatePasses(c.config, due, r.trip, r.passenger, w.clock, r.score);
  }

  lemma SaleInserts(c: Context, w: World, r: SaleRequest)
    requires WellFormed(c) && Sound(c, w) && SaleSucceeds(c, w, r)
    ensures Inserts(c, w, SellUnreserved(c, w, r).0, SellUnreserved(c, w, r).1.value.ticket)
    ensures PaidFor(SellUnreserved(c, w, r).1.value.ticket.status)
  {
    var due, ticket := ExpireDue(w.holds, w.clock), SellUnreserved(c, w, r).1.value.ticket;
    var fare := SaleShape(c, w, r);
    SaleInsertSucceeds(c, w, r, fare);
    SaleDraftIsAdmitted(c, w, due, r, ticket);
  }

  lemma SellUnreservedMoves(c: Context, w: World, r: SaleRequest)
    requires WellFormed(c) && Sound(c, w)
    ensures Moves(c, w, SellUnreserved(c, w, r).0)
  {
    UnchangedIsProgress(w.holds);
    SaleElseUnchanged(c, w, r);
    if SaleSucceeds(c, w, r) {
      SaleInserts(c, w, r);
    }
  }

  /** A successful confirmation pays one stored hold before its deadline. */
  lemma ConfirmShape(c: Context, w: World, id: string, accepted: bool) returns (at: nat)
    requires ConfirmBooking(c, w, id, accepted).1.Ok?
    ensures accepted && at < |w.holds|
    ensures w.holds[at].id == id && w.holds[at].status == Held && w.clock < w.holds[at].heldUntil
    ensures ConfirmBooking(c, w, id, accepted) ==
            (w.(holds := WithStatus(ExpireDue(w.holds, w.clock), at, Confirmed),
                charges := w.charges + [Charge(w.holds[at].reference, w.holds[at].fare, true)]),
             Ok(w.holds[at].(status := Confirmed)))
  {
    var due := ExpireDue(w.holds, w.clock);
    at := Lookup(due, id).value;
    assert due[at].status == Held;
  }

  /** A failed one leaves the table alone; at most a declined charge is on record. */
  lemma ConfirmElseUnchanged(c: Context, w: World, id: string, accepted: bool)
    requires ConfirmBooking(c, w, id, accepted).1.Err?
    ensures ConfirmBooking(c, w, id, accepted).0 == w
            || exists charge: Charge :: !charge.accepted
                 && ConfirmBooking(c, w, id, accepted).0 == w.(charges := w.charges + [charge])
  {
    var due := ExpireDue(w.holds, w.clock);
    if ConfirmBooking(c, w, id, accepted).0 != w {
      var hold := due[Lookup(due, id).value];
      assert !Charge(hold.reference, hold.fare, accepted).accepted;
    }
  }

  lemma PaymentIsProgress(holds: seq<Hold>, now: int, at: nat)
    requires at < |holds| && holds[at].status == Held && now < holds[at].heldUntil
    ensures Progress(holds, WithStatus(ExpireDue(holds, now), at, Confirmed))
  {
    var due := ExpireDue(holds, now);
    ExpiryIsProgress(holds, now);
    StatusChangeIsProgress(due, at, Confirm);
    assert due[at] == holds[at] && Apply(Held, Confirm).value == Confirmed;
  }

  lemma ConfirmMoves(c: Context, w: World, id: string, accepted: bool)
    ensures Quiet(w, ConfirmBooking(c, w, id, accepted).0)
  {
    UnchangedIsProgress(w.holds);
    if ConfirmBooking(c, w, id, accepted).1.Ok? {
      var at := ConfirmShape(c, w, id, accepted);
      PaymentIsProgress(w.holds, w.clock, at);
    } else {
      ConfirmElseUnchanged(c, w, id, accepted);
    }
  }

  lemma CancelMoves(w: World, id: string)
    ensures Quiet(w, CancelBooking(w, id).0)
  {
    UnchangedIsProgress(w.holds);
    var at := Lookup(w.holds, id);
    if at.Some? && CanApply(w.holds[at.value].status, Cancel) {
      StatusChangeIsProgress(w.holds, at.value, Cancel);
      assert Apply(w.holds[at.value].status, Cancel).value == Cancelled;
    }
  }

  predicate OnlyReads(command: Command) {
    command.VerifyCommand? || command.AvailabilityCommand? || command.SearchCommand?
  }

  /** A read either fails and leaves no trace, or commits nothing but the expiry. */
  lemma ReadsOnlyExpire(c: Context, w: World, command: Command)
    requires OnlyReads(command)
    ensures Step(c, w, command) == w || Step(c, w, command) == w.(holds := ExpireDue(w.holds, w.clock))
  {
  }

  lemma StepMoves(c: Context, w: World, command: Command)
    requires WellFormed(c) && Sound(c, w)
    ensures Moves(c, w, Step(c, w, command))
  {
    UnchangedIsProgress(w.holds);
    ExpiryIsProgress(w.holds, w.clock);
    match command
    case HoldCommand(r) => HoldSeatMoves(c, w, r);
    case SellCommand(r) => SellUnreservedMoves(c, w, r);
    case ConfirmCommand(id, accepted) => ConfirmMoves(c, w, id, accepted);
    case CancelCommand(id) => CancelMoves(w, id);
    case TickCommand(seconds) =>
    case _ => ReadsOnlyExpire(c, w, command);
  }

  // ---- soundness is kept ---------------------------------------------------------------------

  lemma ProgressKeepsSited(c: Context, now: int, now': int, a: seq<Hold>, b: seq<Hold>)
    requires Progress(a, b) && now <= now'
    requires forall h :: h in a ==> Sited(c, now, h)
    ensures forall h :: h in b ==> Sited(c, now', h)
  {
    forall h | h in b ensures Sited(c, now', h) {
      var i :| 0 <= i < |b| && b[i] == h;
      assert a[i] in a && Advances(a[i], b[i]);
      TransitionsOnlyClimb(a[i].status, b[i].status);
    }
  }

  lemma QuietKeepsSound(c: Context, w: World, w': World)
    requires Sound(c, w) && Quiet(w, w')
    ensures Sound(c, w')
  {
    ProgressKeepsNoDoubleBooking(w.holds, w'.holds);
    ProgressKeepsSited(c, w.clock, w'.clock, w.holds, w'.holds);
    forall i | 0 <= i < |w.holds| ensures w'.holds[i].id == w.holds[i].id && w.holds[i] in w.holds {
      assert Advances(w.holds[i], w'.holds[i]);
    }
  }

  lemma InsertKeepsSound(c: Context, w: World, w': World, h: Hold)
    requires WellFormed(c) && Sound(c, w) && Inserts(c, w, w', h)
    ensures Sound(c, w')
  {
    var due := w.(holds := ExpireDue(w.holds, w.clock));
    ExpiryIsProgress(w.holds, w.clock);
    QuietKeepsSound(c, w, due);
    FreshIdNotStored(c, w);
    AcceptedInsertIsSafe(due.holds, h);
    forall g, n: nat | g in w'.holds && w'.ids <= n ensures g.id != IdOf(c, n) {
      assert IdOf(c, w.ids) != IdOf(c, n);
      assert g in due.holds || g == h;
    }
    assert forall g :: g in w'.holds ==> g in due.holds || g == h;
  }

  lemma StepKeepsSound(c: Context, w: World, command: Command)
    requires WellFormed(c) && Sound(c, w)
    ensures Sound(c, Step(c, w, command))
  {
    StepMoves(c, w, command);
    var w' := Step(c, w, command);
    if Quiet(w, w') {
      QuietKeepsSound(c, w, w');
    } else {
      var h :| Inserts(c, w, w', h);
      InsertKeepsSound(c, w, w', h);
    }
  }

  /** In every state any run of transactions can reach, no two distinct active bookings on one
      trip and seat overlap; ids are unique; every record's trip, leg and seat were validated. */
  lemma {:induction false} RunsAreSound(c: Context, clock: int, commands: seq<Command>)
    requires WellFormed(c)
    ensures Sound(c, Run(c, clock, commands))
  {
    if commands != [] {
      RunsAreSound(c, clock, commands[..|commands| - 1]);
      StepKeepsSound(c, Run(c, clock, commands[..|commands| - 1]), commands[|commands| - 1]);
    }
  }

  /** The promise of the booking system, told by times and statuses alone: in every reachable
      state, of two distinct records on one trip and seat that are held or confirmed, one leaves
      the train no later than the other boards. */
  lemma RunsNeverDoubleBook(c: Context, clock: int, commands: seq<Command>, i: nat, j: nat)
    requires WellFormed(c)
    ensures var holds := Run(c, clock, commands).holds;
            i < |holds| && j < |holds| && i != j
            && holds[i].trip == holds[j].trip && holds[i].seat == holds[j].seat
            && (holds[i].status == Held || holds[i].status == Confirmed)
            && (holds[j].status == Held || holds[j].status == Confirmed) ==>
              holds[i].leg.dest <= holds[j].leg.origin || holds[j].leg.dest <= holds[i].leg.origin
  {
    RunsAreSound(c, clock, commands);
    var holds := Run(c, clock, commands).holds;
    assert i < j < |holds| ==> !Conflict(holds[i], holds[j]);
    assert j < i < |holds| ==> !Conflict(holds[j], holds[i]);
  }

  // ---- limits ----------------------------------------------------------------------------------

  function AtLeastZero(n: int): nat {
    if n < 0 then 0 else n
  }

  /** The bookings counted against a passenger's velocity when the clock reads t. */
  function WindowEnding(c: Context, trip: string, passenger: string, t: int): Query {
    PassengerWindow(trip, passenger, t - c.config.velocityWindow, t)
  }

  /** The passenger's bookings made in the window that ends when the clock reads t. */
  ghost function BookedInWindow(c: Context, holds: seq<Hold>, trip: string, passenger: string, t: int): set<nat> {
    BookedWithin(holds, trip, passenger, t - c.config.velocityWindow, t)
  }

  /** Seat caps, velocity over any trailing window at any instant, and standing capacity, as
      counts of positions in the table. */
  ghost predicate WithinLimits(c: Context, holds: seq<Hold>) {
    && (forall trip, passenger ::
          |BookedBy(holds, trip, passenger)| <= AtLeastZero(c.config.maxSeatsPerPassenger))
    && (forall trip, passenger, t ::
          |BookedInWindow(c, holds, trip, passenger, t)| <= AtLeastZero(c.config.maxBookingsPerWindow))
    && (forall trip, travelClass ::
          |StandingOn(holds, trip, travelClass)| <= AtLeastZero(c.config.standingCapacity))
  }

  /** The same, as lengths of the selections that the use cases look at. */
  ghost predicate SelectionsWithin(c: Context, holds: seq<Hold>) {
    && (forall trip, passenger ::
          |Select(holds, PassengerActive(trip, passenger))| <= AtLeastZero(c.config.maxSeatsPerPassenger))
    && (forall trip, passenger, t ::
          |Select(holds, WindowEnding(c, trip, passenger, t))| <= AtLeastZero(c.config.maxBookingsPerWindow))
    && (forall trip, travelClass ::
          |Select(holds, StandingIn(trip, travelClass))| <= AtLeastZero(c.config.standingCapacity))
  }

  /** Bookings leave every selection as they advance, and never come back. */
  lemma ProgressNeverSelectsMore(a: seq<Hold>, b: seq<Hold>, q: Query)
    requires Progress(a, b)
    ensures |Select(b, q)| <= |Select(a, q)|
  {
    forall i | 0 <= i < |a| && Matches(q, b[i]) ensures Matches(q, a[i]) {
      assert Advances(a[i], b[i]);
      TransitionsOnlyClimb(a[i].status, b[i].status);
    }
    SelectShrinks(a, b, q);
  }

  lemma ProgressKeepsLimits(c: Context, a: seq<Hold>, b: seq<Hold>)
    requires Progress(a, b) && SelectionsWithin(c, a)
    ensures SelectionsWithin(c, b)
  {
    forall trip, passenger
      ensures |Select(b, PassengerActive(trip, passenger))| <= AtLeastZero(c.config.maxSeatsPerPassenger)
    {
      ProgressNeverSelectsMore(a, b, PassengerActive(trip, passenger));
    }
    forall trip, passenger, t
      ensures |Select(b, WindowEnding(c, trip, passenger, t))| <= AtLeastZero(c.config.maxBookingsPerWindow)
    {
      ProgressNeverSelectsMore(a, b, WindowEnding(c, trip, passenger, t));
    }
    forall trip, travelClass
      ensures |Select(b, StandingIn(trip, travelClass))| <= AtLeastZero(c.config.standingCapacity)
    {
      ProgressNeverSelectsMore(a, b, StandingIn(trip, travelClass));
    }
  }

  lemma AdmissionKeepsLimits(c: Context, now: int, ids: nat, due: seq<Hold>, h: Hold)
    requires Admitted(c, now, ids, due, h) && SelectionsWithin(c, due)
    ensures SelectionsWithin(c, due + [h])
  {
    forall trip, passenger
      ensures |Select(due + [h], PassengerActive(trip, passenger))| <= AtLeastZero(c.config.maxSeatsPerPassenger)
    {
      AdmissionKeepsCap(c, due, h, trip, passenger);
    }
    forall trip, passenger, t
      ensures |Select(due + [h], WindowEnding(c, trip, passenger, t))| <= AtLeastZero(c.config.maxBookingsPerWindow)
    {
      AdmissionKeepsVelocity(c, due, h, trip, passenger, t);
    }
    forall trip, travelClass
      ensures |Select(due + [h], StandingIn(trip, travelClass))| <= AtLeastZero(c.config.standingCapacity)
    {
      AdmissionKeepsStanding(c, due, h, trip, travelClass);
    }
  }

  lemma OneMoreStaysWithin(due: seq<Hold>, h: Hold, q: Query, limit: int)
    requires |Select(due, q)| <= AtLeastZero(limit)
    requires Matches(q, h) ==> |Select(due, q)| < limit
    ensures |Select(due + [h], q)| <= AtLeastZero(limit)
  {
    SelectedOfMore(due, h, q);
  }

  lemma AdmissionKeepsCap(c: Context, due: seq<Hold>, h: Hold, trip: string, passenger: string)
    requires |Select(due, PassengerActive(h.trip, h.passenger))| < c.config.maxSeatsPerPassenger
    requires |Select(due, PassengerActive(trip, passenger))| <= AtLeastZero(c.config.maxSeatsPerPassenger)
    ensures |Select(due + [h], PassengerActive(trip, passenger))| <= AtLeastZero(c.config.maxSeatsPerPassenger)
  {
    OneMoreStaysWithin(due, h, PassengerActive(trip, passenger), c.config.maxSeatsPerPassenger);
  }

  lemma AdmissionKeepsVelocity(c: Context, due: seq<Hold>, h: Hold, trip: string, passenger: string, t: int)
    requires var recent := PassengerRecent(h.trip, h.passenger, h.createdAt - c.config.velocityWindow);
             |Select(due, recent)| < c.config.maxBookingsPerWindow
    requires |Select(due, WindowEnding(c, trip, passenger, t))| <= AtLeastZero(c.config.maxBookingsPerWindow)
    ensures |Select(due + [h], WindowEnding(c, trip, passenger, t))| <= AtLeastZero(c.config.maxBookingsPerWindow)
  {
    var window := WindowEnding(c, trip, passenger, t);
    if Matches(window, h) {
      NarrowerSelectsFewer(due, window, PassengerRecent(trip, passenger, h.createdAt - c.config.velocityWindow));
    }
    OneMoreStaysWithin(due, h, window, c.config.maxBookingsPerWindow);
  }

  lemma AdmissionKeepsStanding(c: Context, due: seq<Hold>, h: Hold, trip: string, travelClass: TravelClass)
    requires h.status == Standing ==> StandingRoom(c, due, h.trip, h.travelClass)
    requires |Select(due, StandingIn(trip, travelClass))| <= AtLeastZero(c.config.standingCapacity)
    ensures |Select(due + [h], StandingIn(trip, travelClass))| <= AtLeastZero(c.config.standingCapacity)
  {
    OneMoreStaysWithin(due, h, StandingIn(trip, travelClass), c.config.standingCapacity);
  }

  lemma {:induction false} RunsKeepSelectionsWithin(c: Context, clock: int, commands: seq<Command>)
    requires WellFormed(c)
    ensures SelectionsWithin(c, Run(c, clock, commands).holds)
  {
    if commands == [] {
      assert Run(c, clock, commands).holds == [];
    } else {
      var before, command := commands[..|commands| - 1], commands[|commands| - 1];
      var w, w' := Run(c, clock, before), Run(c, clock, commands);
      RunsAreSound(c, clock, before);
      RunsKeepSelectionsWithin(c, clock, before);
      StepMoves(c, w, command);
      if Quiet(w, w') {
        ProgressKeepsLimits(c, w.holds, w'.holds);
      } else {
        var h :| Inserts(c, w, w', h);
        ExpiryIsProgress(w.holds, w.clock);
        ProgressKeepsLimits(c, w.holds, ExpireDue(w.holds, w.clock));
        AdmissionKeepsLimits(c, w.clock, w.ids, ExpireDue(w.holds, w.clock), h);
      }
    }
  }

  /** Whatever the run: held and confirmed bookings per passenger and trip stay within the seat
      cap, those created in any trailing window (ending now, earlier or later) within the velocity
      limit, and standing tickets per trip and class within the standing capacity. */
  lemma RunsStayWithinLimits(c: Context, clock: int, commands: seq<Command>)
    requires WellFormed(c)
    ensures WithinLimits(c, Run(c, clock, commands).holds)
  {
    RunsKeepSelectionsWithin(c, clock, commands);
    SelectionsMeanLimits(c, Run(c, clock, commands).holds);
  }

  lemma SelectionsMeanLimits(c: Context, holds: seq<Hold>)
    requires SelectionsWithin(c, holds)
    ensures WithinLimits(c, holds)
  {
    forall trip, passenger
      ensures |BookedBy(holds, trip, passenger)| <= AtLeastZero(c.config.maxSeatsPerPassenger)
    {
      BookedByIsSelected(holds, trip, passenger);
    }
    forall trip, passenger, t
      ensures |BookedInWindow(c, holds, trip, passenger, t)| <= AtLeastZero(c.config.maxBookingsPerWindow)
    {
      WindowIsSelected(c, holds, trip, passenger, t);
    }
    forall trip, travelClass
      ensures |StandingOn(holds, trip, travelClass)| <= AtLeastZero(c.config.standingCapacity)
    {
      StandingIsSelected(holds, trip, travelClass);
    }
  }

  lemma WindowIsSelected(c: Context, holds: seq<Hold>, trip: string, passenger: string, t: int)
    ensures |BookedInWindow(c, holds, trip, passenger, t)| == |Select(holds, WindowEnding(c, trip, passenger, t))|
  {
    BookedWithinIsSelected(holds, trip, passenger, t - c.config.velocityWindow, t);
  }
}
