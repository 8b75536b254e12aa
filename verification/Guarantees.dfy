/** Whole-system statements about every reachable state, drawn from all the modules. */
module Guarantees {
  import opened Outcomes
  import opened Stations
  import opened Records
  import opened Bookings
  import opened Support
  import opened Depth
  import opened Seating
  import opened Views
  import opened ExcludeTable
  import opened Transactions
  import opened Invariants
  import opened Ledger
  import opened References
  import opened Lifecycle
  import opened Requests
  import opened Receipts
  import opened Expiry

  // ---- money and tickets ------------------------------------------------------------------------

  /** The transaction commits the at-th booking into a paid status, no other booking becomes
      paid, and the money taken is just for that one. */
  ghost predicate Buys(w: World, w': World, at: nat) {
    && at < |w'.holds| && PaidFor(w'.holds[at].status)
    && (at == |w.holds| || (at < |w.holds| && w.holds[at].status == Held))
    && (forall i :: 0 <= i < |w'.holds| && i != at && PaidFor(w'.holds[i].status) ==>
          i < |w.holds| && w'.holds[i] == w.holds[i])
    && Accepted(w'.charges) == Accepted(w.charges) + [(w'.holds[at].reference, w'.holds[at].fare)]
  }

  lemma SaleBuys(c: Context, w: World, r: SaleRequest)
    requires WellFormed(c) && Sound(c, w) && SaleSucceeds(c, w, r)
    ensures Buys(w, SellUnreserved(c, w, r).0, |w.holds|)
  {
    var fare := SaleShape(c, w, r);
    SaleInserts(c, w, r);
    TicketBuys(w, SellUnreserved(c, w, r).0, SellUnreserved(c, w, r).1.value.ticket);
  }

  lemma TicketBuys(w: World, w': World, ticket: Hold)
    requires w'.holds == ExpireDue(w.holds, w.clock) + [ticket] && PaidFor(ticket.status)
    requires w'.charges == w.charges + [Charge(ticket.reference, ticket.fare, true)]
    ensures Buys(w, w', |w.holds|)
  {
    AcceptedOfMore(w.charges, Charge(ticket.reference, ticket.fare, true));
  }

  lemma ConfirmBuys(c: Context, w: World, id: string, accepted: bool) returns (at: nat)
    ensures ConfirmBooking(c, w, id, accepted).1.Ok? ==> Buys(w, ConfirmBooking(c, w, id, accepted).0, at)
    ensures ConfirmBooking(c, w, id, accepted).1.Err? ==>
              Accepted(ConfirmBooking(c, w, id, accepted).0.charges) == Accepted(w.charges)
  {
    var w' := ConfirmBooking(c, w, id, accepted).0;
    if ConfirmBooking(c, w, id, accepted).1.Ok? {
      at := ConfirmShape(c, w, id, accepted);
      AcceptedOfMore(w.charges, Charge(w.holds[at].reference, w.holds[at].fare, true));
    } else {
      at := 0;
      ConfirmElseUnchanged(c, w, id, accepted);
      if w' != w {
        AcceptedOfMore(w.charges, w'.charges[|w.charges|]);
      }
    }
  }

  /** In every reachable state, a transaction that takes money is not refused, and commits
      exactly one booking into a paid status, for the charged reference and amount. */
  lemma AcceptedChargeBuysATicket(c: Context, clock: int, commands: seq<Command>, command: Command) returns (at: nat)
    requires WellFormed(c)
    requires Accepted(Step(c, Run(c, clock, commands), command).charges) != Accepted(Run(c, clock, commands).charges)
    ensures !Refused(c, Run(c, clock, commands), command)
    ensures Buys(Run(c, clock, commands), Step(c, Run(c, clock, commands), command), at)
  {
    var w := Run(c, clock, commands);
    RunsAreSound(c, clock, commands);
    at := |w.holds|;
    if command.SellCommand? {
      SaleElseUncharged(c, w, command.sale);
      SaleBuys(c, w, command.sale);
    } else if command.ConfirmCommand? {
      at := ConfirmBuys(c, w, command.id, command.accepted);
    } else {
      OthersChargeNothing(c, w, command);
    }
  }

  lemma OthersChargeNothing(c: Context, w: World, command: Command)
    requires !command.SellCommand? && !command.ConfirmCommand?
    ensures Step(c, w, command).charges == w.charges
  {
    match command
    case HoldCommand(r) => HoldSeatElseUnchanged(c, w, r);
    case CancelCommand(_) =>
    case TickCommand(_) =>
    case _ => ReadsOnlyExpire(c, w, command);
  }

  /** A sale is standing iff every pool seat is blocked; otherwise it is confirmed on a pool
      seat that nobody blocks. */
  lemma StandingIffPoolBlocked(c: Context, w: World, r: SaleRequest)
    requires WellFormed(c) && Sound(c, w) && SaleSucceeds(c, w, r)
    ensures var ticket := SellUnreserved(c, w, r).1.value.ticket;
            var due, pool := ExpireDue(w.holds, w.clock), Pool(c.trips[r.trip], r.travelClass);
            && (ticket.status == Standing <==> forall i :: 0 <= i < |pool| ==> Blocked(due, r.trip, pool[i].id, r.leg))
            && (ticket.status != Standing ==>
                  && ticket.status == Confirmed
                  && exists i :: 0 <= i < |pool| && ticket.seat == pool[i].id
                                 && !Blocked(due, r.trip, pool[i].id, r.leg))
  {
    var fare := SaleShape(c, w, r);
    var due, pool := ExpireDue(w.holds, w.clock), Pool(c.trips[r.trip], r.travelClass);
    forall i | 0 <= i < |pool|
      ensures FreeOver(PoolLegs(due, r.trip, pool)[i], r.leg) <==> !Blocked(due, r.trip, pool[i].id, r.leg)
    {
      BlockedMeansNotFree(due, r.trip, pool, i, r.leg);
    }
  }

  /** A freed seat's station lies strictly inside the leg and on the trip's line. */
  lemma FreeingStationIsOnLine(c: Context, now: int, due: seq<Hold>, trip: string, seat: string, leg: Leg, board: int)
    requires trip in c.trips && forall h :: h in due ==> Sited(c, now, h)
    requires exists l :: l in LegsOf(Select(due, SeatActive(trip, seat))) && l.dest == board
    ensures OnLine(c.trips[trip].stations, board)
  {
    var found := Select(due, SeatActive(trip, seat));
    var l :| l in LegsOf(found) && l.dest == board;
    var k :| 0 <= k < |found| && LegsOf(found)[k] == l;
    assert found[k] in due && Sited(c, now, found[k]);
  }

  /** Standing advice, in any reachable state, is printed only on standing tickets; it names a
      seat of the pool and a station of the trip strictly after the passenger's origin and
      before the destination, and from there the seat really is free to the destination. */
  lemma StandingAdviceIsGood(c: Context, clock: int, commands: seq<Command>, r: SaleRequest)
    requires WellFormed(c) && SaleSucceeds(c, Run(c, clock, commands), r)
    requires SellUnreserved(c, Run(c, clock, commands), r).1.value.offer.Some?
    ensures var w := Run(c, clock, commands);
            var sale := SellUnreserved(c, w, r).1.value;
            var pool := Pool(c.trips[r.trip], r.travelClass);
            var legs := PoolLegs(ExpireDue(w.holds, w.clock), r.trip, pool);
            var offer := sale.offer.value;
            && sale.ticket.status == Standing
            && offer.seatIndex < |pool|
            && r.leg.origin < offer.boardSeq < r.leg.dest
            && OnLine(c.trips[r.trip].stations, offer.boardSeq)
            && FreeFrom(legs[offer.seatIndex], offer.boardSeq, r.leg.dest)
  {
    var w := Run(c, clock, commands);
    RunsAreSound(c, clock, commands);
    var fare := SaleShape(c, w, r);
    var due, pool := ExpireDue(w.holds, w.clock), Pool(c.trips[r.trip], r.travelClass);
    var legs := PoolLegs(due, r.trip, pool);
    var offer := OfferFor(legs, r.leg).value;
    var seat := legs[offer.seatIndex];
    assert IsBestOffer(legs, r.leg, Some(offer)) && !FreeOver(seat, r.leg);
    EarliestBoarding(seat, r.leg, offer.boardSeq, legs, offer.seatIndex);
    ExpiryIsProgress(w.holds, w.clock);
    ProgressKeepsSited(c, w.clock, w.clock, w.holds, due);
    FreeingStationIsOnLine(c, w.clock, due, r.trip, pool[offer.seatIndex].id, r.leg, offer.boardSeq);
  }

  /** From station s to station dest nobody has the seat booked: no confirmed booking, and no hold
      that has time left, is on board in between. */
  predicate OpenFrom(holds: seq<Hold>, now: int, trip: string, seat: string, s: int, dest: int) {
    forall h :: h in holds && h.trip == trip && h.seat == seat
                && (h.status == Confirmed || (h.status == Held && now < h.heldUntil)) ==>
      h.leg.dest <= s || dest <= h.leg.origin
  }

  lemma OpenMeansFreeFrom(holds: seq<Hold>, now: int, trip: string, pool: seq<Seat>, i: nat, s: int, dest: int)
    requires i < |pool|
    ensures FreeFrom(PoolLegs(ExpireDue(holds, now), trip, pool)[i], s, dest) <==>
            OpenFrom(holds, now, trip, pool[i].id, s, dest)
  {
    var due := ExpireDue(holds, now);
    var found := Select(due, SeatActive(trip, pool[i].id));
    if FreeFrom(LegsOf(found), s, dest) {
      forall h | h in holds && h.trip == trip && h.seat == pool[i].id
                 && (h.status == Confirmed || (h.status == Held && now < h.heldUntil))
        ensures h.leg.dest <= s || dest <= h.leg.origin
      {
        var k :| 0 <= k < |holds| && holds[k] == h;
        assert due[k] == h && h in due && h in found;
        LegIsListed(found, h);
      }
    }
    if OpenFrom(holds, now, trip, pool[i].id, s, dest) {
      forall l | l in LegsOf(found) ensures dest <= l.origin || l.dest <= s {
        var k :| 0 <= k < |found| && LegsOf(found)[k] == l;
        StillActiveIsStored(holds, now, found[k]);
      }
    }
  }

  lemma StillActiveIsStored(holds: seq<Hold>, now: int, h: Hold)
    requires h in ExpireDue(holds, now) && Active(h.status)
    ensures h in holds && (h.status == Confirmed || (h.status == Held && now < h.heldUntil))
  {
    var k :| 0 <= k < |holds| && ExpireDue(holds, now)[k] == h;
    assert holds[k] in holds;
  }

  /** The offer is the earliest station of the leg, and there the first pool seat, from which
      nobody has the seat booked to the destination; none iff there is no such pair. */
  ghost predicate IsEarliestOpen(holds: seq<Hold>, now: int, trip: string, pool: seq<Seat>, leg: Leg,
                                 offer: Option<SeatOffer>) {
    match offer
    case None =>
      forall i, s :: 0 <= i < |pool| && leg.origin <= s < leg.dest ==>
        !OpenFrom(holds, now, trip, pool[i].id, s, leg.dest)
    case Some(best) =>
      && best.seatIndex < |pool| && leg.origin <= best.boardSeq < leg.dest
      && OpenFrom(holds, now, trip, pool[best.seatIndex].id, best.boardSeq, leg.dest)
      && forall i, s :: 0 <= i < |pool| && leg.origin <= s < leg.dest
                        && OpenFrom(holds, now, trip, pool[i].id, s, leg.dest) ==>
           best.boardSeq < s || (best.boardSeq == s && best.seatIndex <= i)
  }

  lemma OfferIsEarliest(holds: seq<Hold>, now: int, trip: string, pool: seq<Seat>, leg: Leg)
    ensures IsEarliestOpen(holds, now, trip, pool, leg, OfferFor(PoolLegs(ExpireDue(holds, now), trip, pool), leg))
  {
    var legs := PoolLegs(ExpireDue(holds, now), trip, pool);
    BestOfferIsEarliest(holds, now, trip, pool, leg, legs, OfferFor(legs, leg));
  }

  lemma BestOfferIsEarliest(holds: seq<Hold>, now: int, trip: string, pool: seq<Seat>, leg: Leg,
                            legs: seq<seq<Leg>>, offer: Option<SeatOffer>)
    requires legs == PoolLegs(ExpireDue(holds, now), trip, pool) && IsBestOffer(legs, leg, offer)
    ensures IsEarliestOpen(holds, now, trip, pool, leg, offer)
  {
    forall i: nat, s | i < |pool| && OpenFrom(holds, now, trip, pool[i].id, s, leg.dest)
      ensures FreeFrom(legs[i], s, leg.dest)
    {
      OpenMeansFreeFrom(holds, now, trip, pool, i, s, leg.dest);
    }
    if offer.Some? {
      OpenMeansFreeFrom(holds, now, trip, pool, offer.value.seatIndex, offer.value.boardSeq, leg.dest);
    }
  }

  /** The advice is the best there is, told by bookings, in any reachable state: a standing
      passenger is offered the earliest pool seat that opens up for the rest of the leg, and
      nothing iff none ever does; a seated passenger is offered nothing. */
  lemma StandingAdviceIsEarliest(c: Context, clock: int, commands: seq<Command>, r: SaleRequest)
    requires WellFormed(c) && SaleSucceeds(c, Run(c, clock, commands), r)
    ensures r.trip in c.trips
    ensures var w, sale := Run(c, clock, commands), SellUnreserved(c, Run(c, clock, commands), r).1.value;
            && (sale.ticket.status != Standing ==> sale.offer.None?)
            && (sale.ticket.status == Standing ==>
                  IsEarliestOpen(w.holds, w.clock, r.trip, Pool(c.trips[r.trip], r.travelClass), r.leg, sale.offer))
  {
    var w := Run(c, clock, commands);
    var fare := SaleShape(c, w, r);
    OfferIsEarliest(w.holds, w.clock, r.trip, Pool(c.trips[r.trip], r.travelClass), r.leg);
  }

  /** On a seat that is not free for the whole leg, the best offer boards where a leg ends. */
  lemma EarliestBoarding(seat: seq<Leg>, leg: Leg, board: int, legs: seq<seq<Leg>>, index: nat)
    requires index < |legs| && seat == legs[index]
    requires IsBestOffer(legs, leg, Some(SeatOffer(board, index))) && !FreeOver(seat, leg)
    ensures leg.origin < board && exists l :: l in seat && l.dest == board
  {
    var earliest := FreesForRemainder(seat, leg.origin, leg.dest);
    assert earliest == Some(board);
    var blocker :| blocker in seat && leg.Overlaps(blocker);
    assert !FreeFrom(seat, leg.origin, leg.dest);
  }

  /** The price shown when a seat is held is the price charged: whatever happens in between,
      confirming the i-th booking charges the fare it had in any earlier state of the run. */
  lemma PriceIsLocked(c: Context, clock: int, commands: seq<Command>, more: seq<Command>, i: nat, accepted: bool)
    requires WellFormed(c) && i < |Run(c, clock, commands).holds|
    requires ConfirmBooking(c, Run(c, clock, commands + more), Run(c, clock, commands).holds[i].id, accepted).1.Ok?
    ensures var held, w := Run(c, clock, commands).holds[i], Run(c, clock, commands + more);
            && held.status == Held && held.heldUntil > w.clock
            && ConfirmBooking(c, w, held.id, accepted).0.charges
               == w.charges + [Charge(held.reference, held.fare, true)]
  {
    var earlier, w := Run(c, clock, commands).holds, Run(c, clock, commands + more);
    ContinuationsOnlyAdvance(c, clock, commands, more);
    var at := ConfirmOnlyBeforeDeadline(c, clock, commands + more, earlier[i].id, accepted);
    assert Advances(earlier[i], w.holds[i]);
    assert i == at;
    TransitionsOnlyClimb(earlier[i].status, w.holds[i].status);
  }

  /** When an active booking stops being active, its whole leg can be booked again. */
  lemma ReleasedLegIsBookable(holds: seq<Hold>, after: seq<Hold>, at: nat, h: Hold)
    requires NoDoubleBooking(holds) && Progress(holds, after)
    requires at < |holds| && Active(holds[at].status) && !Active(after[at].status)
    requires h.trip == holds[at].trip && h.seat == holds[at].seat
    requires holds[at].leg.origin <= h.leg.origin && h.leg.dest <= holds[at].leg.dest
    ensures AddHold(after, h).Ok?
  {
    forall e | e in after ensures !Blocks(e, h) {
      var i :| 0 <= i < |after| && after[i] == e;
      assert Advances(holds[i], after[i]) && Advances(holds[at], after[at]);
      assert i < at ==> !Conflict(holds[i], holds[at]);
      assert at < i ==> !Conflict(holds[at], holds[i]);
      ReleasedNeverBlocks(holds[i], after[i], holds[at], h, i == at);
    }
  }

  lemma ReleasedNeverBlocks(before: Hold, after: Hold, booking: Hold, h: Hold, released: bool)
    requires Advances(before, after) && Active(booking.status)
    requires if released then !Active(after.status) else !Conflict(before, booking) || !Conflict(booking, before)
    requires h.trip == booking.trip && h.seat == booking.seat
    requires booking.leg.origin <= h.leg.origin && h.leg.dest <= booking.leg.dest
    ensures !Blocks(after, h)
  {
    TransitionsOnlyClimb(before.status, after.status);
  }

  /** Cancelling reopens the segment at once: in any reachable state, right after an active
      booking is cancelled, any hold within its leg on its seat is accepted. */
  lemma CancellingReopensTheLeg(c: Context, clock: int, commands: seq<Command>, at: nat, h: Hold)
    requires WellFormed(c)
    requires at < |Run(c, clock, commands).holds| && Active(Run(c, clock, commands).holds[at].status)
    requires var booking := Run(c, clock, commands).holds[at];
             && h.trip == booking.trip && h.seat == booking.seat
             && booking.leg.origin <= h.leg.origin && h.leg.dest <= booking.leg.dest
    ensures var (w', outcome) := CancelBooking(Run(c, clock, commands), Run(c, clock, commands).holds[at].id);
            outcome.Ok? && AddHold(w'.holds, h).Ok?
  {
    var w := Run(c, clock, commands);
    RunsAreSound(c, clock, commands);
    var found := Lookup(w.holds, w.holds[at].id);
    assert found == Some(at);
    CancelMoves(w, w.holds[at].id);
    ReleasedLegIsBookable(w.holds, CancelBooking(w, w.holds[at].id).0.holds, at, h);
  }

  // ---- receipts ------------------------------------------------------------------------------------

  /** A confirmation that has been committed and charged still raises at its receipt exactly when
      the train does not call at both ends of the leg. */
  lemma ConfirmationPrintsIffServed(c: Context, clock: int, commands: seq<Command>, id: string, accepted: bool)
    requires WellFormed(c) && ConfirmBooking(c, Run(c, clock, commands), id, accepted).1.Ok?
    ensures var booking := ConfirmBooking(c, Run(c, clock, commands), id, accepted).1.value;
            && booking.trip in c.trips
            && var trip := c.trips[booking.trip];
               var receipt := BuildReceipt(booking, trip, SeatOn(trip, booking.seat), None, []);
               receipt.Ok? <==> Serves(trip.stops, booking.leg)
  {
    RunsAreSound(c, clock, commands);
    var at := ConfirmShape(c, Run(c, clock, commands), id, accepted);
    var booking := ConfirmBooking(c, Run(c, clock, commands), id, accepted).1.value;
    assert Sited(c, Run(c, clock, commands).clock, Run(c, clock, commands).holds[at]);
    PrintedIffServed(booking, c.trips[booking.trip], SeatOn(c.trips[booking.trip], booking.seat), None, []);
  }

  /** The same for a counter sale, whose receipt also carries the standing advice: the advice
      never gets in the way, and is printed whenever there is an offer. */
  lemma SalePrintsIffServed(c: Context, clock: int, commands: seq<Command>, r: SaleRequest)
    requires WellFormed(c) && SaleSucceeds(c, Run(c, clock, commands), r)
    ensures r.trip in c.trips
    ensures var sale, trip := SellUnreserved(c, Run(c, clock, commands), r).1.value, c.trips[r.trip];
            var receipt := BuildReceipt(sale.ticket, trip, SeatOn(trip, sale.ticket.seat), sale.offer,
                                        Pool(trip, r.travelClass));
            && (receipt.Ok? <==> Serves(trip.stops, r.leg))
            && (receipt.Ok? ==> (receipt.value.standing.Some? <==> sale.offer.Some?))
  {
    var w := Run(c, clock, commands);
    var fare := SaleShape(c, w, r);
    var sale, trip := SellUnreserved(c, w, r).1.value, c.trips[r.trip];
    if sale.offer.Some? {
      StandingAdviceIsGood(c, clock, commands, r);
    }
    PrintedIffServed(sale.ticket, trip, SeatOn(trip, sale.ticket.seat), sale.offer, Pool(trip, r.travelClass));
  }

  // ---- the constrained table ------------------------------------------------------------------------

  /** The insert a transaction is about to make: the table it makes it into, and the record. */
  ghost function Attempted(c: Context, w: World, command: Command): Option<(seq<Hold>, Hold)> {
    var due := ExpireDue(w.holds, w.clock);
    match command
    case HoldCommand(r) =>
      if Replayed(w.holds, r.reference).Some? || HoldRefusal(c, due, w.clock, r).Some? then None
      else
        var travelClass := SeatOn(c.trips[r.trip], r.seat).value.travelClass;
        var fare := PriceLeg(c, due, c.trips[r.trip], r.leg, travelClass);
        if fare.Err? then None else Some((due, HoldDraft(c, w, r, travelClass, fare.value)))
    case SellCommand(r) =>
      if Replayed(w.holds, r.reference).Some? || SaleRefusal(c, due, w.clock, r).Some? then None
      else
        var fare := PriceLeg(c, due, c.trips[r.trip], r.leg, r.travelClass);
        if fare.Err? then None else Some((due, SaleDraft(c, w, r, ChosenSeatId(c, due, r), fare.value)))
    case _ => None
  }

  /** In every reachable state, whatever is done next: the in-memory store and the constrained
      table accept and refuse the same inserts, and no committed change, status changes and
      expiries included, ever violates the constraint. */
  lemma StoreMirrorsTable(c: Context, clock: int, commands: seq<Command>, command: Command)
    requires WellFormed(c)
    ensures var w := Run(c, clock, commands);
            && Satisfies(RowsOf(w.holds))
            && Satisfies(RowsOf(ExpireDue(w.holds, w.clock)))
            && Satisfies(RowsOf(Step(c, w, command).holds))
    ensures var attempted := Attempted(c, Run(c, clock, commands), command);
            attempted.Some? ==>
              var (table, h) := attempted.value;
              AddHold(table, h).Ok? <==> Accepts(RowsOf(table), RowOf(h))
  {
    var w := Run(c, clock, commands);
    var due := ExpireDue(w.holds, w.clock);
    RunsAreSound(c, clock, commands);
    StepKeepsSound(c, w, command);
    ExpiryIsProgress(w.holds, w.clock);
    QuietKeepsSound(c, w, w.(holds := due));
    TableOfSafeStore(w.holds);
    TableOfSafeStore(due);
    TableOfSafeStore(Step(c, w, command).holds);
    var attempted := Attempted(c, w, command);
    if attempted.Some? {
      AttemptIsFair(c, w, command);
      InsertVerdictsAgree(due, attempted.value.1);
    }
  }

  lemma AttemptIsFair(c: Context, w: World, command: Command)
    requires WellFormed(c) && Sound(c, w) && Attempted(c, w, command).Some?
    ensures var (due, h) := Attempted(c, w, command).value;
            && due == ExpireDue(w.holds, w.clock) && Lookup(due, h.id).None?
            && ((exists e :: e in due && Blocks(e, h)) ==> Active(h.status) && h.seat != "")
  {
    FreshIdNotStored(c, w);
    match command
    case HoldCommand(r) =>
    case SellCommand(r) =>
      SaleInsertSucceeds(c, w, r, Attempted(c, w, command).value.1.fare);
  }

  // ---- views over runs --------------------------------------------------------------------------------

  lemma ActiveSeatsAreReal(c: Context, w: World, trip: string)
    requires WellFormed(c) && Sound(c, w) && trip in c.trips
    ensures forall h :: h in w.holds && Matches(TripActive(c.trips[trip].id), h) ==> h.seat in SeatIds(c.trips[trip])
  {
    forall h | h in w.holds && Matches(TripActive(c.trips[trip].id), h) ensures h.seat in SeatIds(c.trips[trip]) {
      assert Sited(c, w.clock, h);
    }
  }

  lemma ActiveLegsAreOnLine(c: Context, w: World, trip: string)
    requires Sound(c, w) && trip in c.trips
    ensures LegsOnLine(Select(w.holds, TripActive(trip)), c.trips[trip].stations)
  {
    forall h | h in Select(w.holds, TripActive(trip))
      ensures OnLine(c.trips[trip].stations, h.leg.origin) && OnLine(c.trips[trip].stations, h.leg.dest)
    {
      assert Sited(c, w.clock, h);
    }
  }

  lemma BusiestStation(holds: seq<Hold>, trip: string)
    ensures var needed := MaxDepth(LegsOf(Select(holds, TripActive(trip))));
            && (forall p :: |OnBoardAt(holds, trip, p)| <= needed)
            && exists p :: |OnBoardAt(holds, trip, p)| == needed
  {
    var legs := LegsOf(Select(holds, TripActive(trip)));
    forall p ensures DepthAt(legs, p) == |OnBoardAt(holds, trip, p)| {
      DepthIsOnBoard(holds, trip, p);
    }
    var p :| DepthAt(legs, p) == MaxDepth(legs);
    assert |OnBoardAt(holds, trip, p)| == MaxDepth(legs);
  }

  /** In every reachable state the impact report of a trip with a line succeeds. It counts the
      held and confirmed bookings; the seats it says are needed are exactly as many as there are
      bookings on board at the busiest station; they fit the seats actually booked, which fit the
      trip; it reports no loss; and occupancy over any leg is a fraction. */
  lemma ReportsFitTheTrain(c: Context, clock: int, commands: seq<Command>, trip: string, leg: Leg)
    requires WellFormed(c) && trip in c.trips
    ensures var w := Run(c, clock, commands);
            var active := Select(w.holds, TripActive(trip));
            var report := Impact(active, c.trips[trip].stations);
            && (report.Ok? <==> c.trips[trip].stations != [])
            && (report.Ok? ==>
                  && report.value.activeLegs == |AliveOn(w.holds, trip)|
                  && (forall p :: |OnBoardAt(w.holds, trip, p)| <= report.value.seatsUsed)
                  && (exists p :: |OnBoardAt(w.holds, trip, p)| == report.value.seatsUsed)
                  && report.value.seatsUsed <= |ColoursUsed(SeatsOf(active))|
                  && 0.0 <= report.value.seatKmReclaimed)
            && |ColoursUsed(SeatsOf(active))| <= |c.trips[trip].seats|
            && 0.0 <= OccupancyOverLeg(w.holds, c.trips[trip], leg) <= 1.0
  {
    var w := Run(c, clock, commands);
    RunsAreSound(c, clock, commands);
    ActiveSeatsAreReal(c, w, trip);
    ActiveLegsAreOnLine(c, w, trip);
    PackedSeatsFitTheTrip(w.holds, c.trips[trip]);
    OccupancyIsAFraction(w.holds, c.trips[trip], leg);
    BusiestStation(w.holds, trip);
    AliveAreSelected(w.holds, trip);
    if c.trips[trip].stations != [] {
      ImpactIsNonNegative(Select(w.holds, TripActive(trip)), c.trips[trip].stations);
    }
  }

  /** After an availability query, in any reachable state: a seat is shown available iff a fresh
      hold on it for that leg would now be accepted, and the free count is the number of such. */
  lemma AvailabilityIsBookability(c: Context, clock: int, commands: seq<Command>, trip: string, leg: Leg,
                                  i: nat, h: Hold)
    requires WellFormed(c) && trip in c.trips && ValidLeg(c.trips[trip], leg) && i < |c.trips[trip].seats|
    requires h.trip == trip && h.seat == c.trips[trip].seats[i].id && h.leg == leg
    requires Lookup(Run(c, clock, commands).holds, h.id).None?
    ensures var (w', outcome) := LegAvailability(c, Run(c, clock, commands), trip, leg);
            && outcome.Ok? && |outcome.value.seats| == |c.trips[trip].seats|
            && (outcome.value.seats[i].available <==> AddHold(w'.holds, h).Ok?)
            && outcome.value.freeCount == |FreeAt(outcome.value.seats)|
  {
    var w := Run(c, clock, commands);
    var due := ExpireDue(w.holds, w.clock);
    forall k | 0 <= k < |due| ensures due[k].id != h.id {
      assert w.holds[k].id != h.id;
    }
    assert Lookup(due, h.id).None?;
    AvailableMeansBookable(due, c.trips[trip], i, leg, h);
  }

  /** The trips a search looks at are trips of the store. */
  predicate FromStore(c: Context, trips: seq<Trip>) {
    forall t :: t in trips ==> t.id in c.trips && c.trips[t.id] == t
  }

  /** From the first station listed under the origin's code to the first under the destination's,
      at the times of the train's own calls there, over the distance between their last posts. */
  ghost predicate RunsAsListed(trip: Trip, originCode: string, destCode: string, entry: TrainOption)
    requires 0 <= entry.origin < entry.dest
  {
    && (exists i :: FirstCalled(trip.stations, originCode, i) && trip.stations[i].seq_no == entry.origin)
    && (exists i :: FirstCalled(trip.stations, destCode, i) && trip.stations[i].seq_no == entry.dest)
    && Calls(trip, Span(entry.origin, entry.dest), entry.depart, entry.arrive)
    && (exists i, j :: LastAt(trip.stations, i) && trip.stations[i].seq_no == entry.origin
                       && LastAt(trip.stations, j) && trip.stations[j].seq_no == entry.dest
                       && entry.distanceKm == trip.stations[j].km - trip.stations[i].km)
  }

  /** First class before second before third, each at most once, and just those classes that have
      a reserved seat. */
  ghost predicate ClassesAsOffered(trip: Trip, classes: seq<ClassOption>) {
    && (forall i, j :: 0 <= i < j < |classes| ==>
          (classes[i].travelClass == First && classes[j].travelClass != First)
          || (classes[i].travelClass == Second && classes[j].travelClass == Third))
    && (forall k :: Listed(classes, k) <==> exists s :: s in trip.seats && s.kind == Reserved && s.travelClass == k)
  }

  predicate Listed(classes: seq<ClassOption>, k: TravelClass) {
    exists option :: option in classes && option.travelClass == k
  }

  /** The entry is the store's own trip, which runs as listed and offers the classes it has; each
      is listed with as many free seats as the availability answer shows in that class, and at
      the quoted fare. */
  ghost predicate EntryIsTrue(c: Context, due: seq<Hold>, originCode: string, destCode: string,
                              entry: TrainOption, shown: Outcome<Availability>) {
    && entry.trip in c.trips && 0 <= entry.origin < entry.dest
    && var trip, leg := c.trips[entry.trip], Span(entry.origin, entry.dest);
    && ValidLeg(trip, leg) && RunsAsListed(trip, originCode, destCode, entry)
    && ClassesAsOffered(trip, entry.classes)
    && shown.Ok? && |shown.value.seats| == |trip.seats|
    && forall option :: option in entry.classes ==>
         && option.freeSeats == |AvailableReserved(shown.value.seats, trip.seats, option.travelClass)|
         && PriceLeg(c, due, trip, leg, option.travelClass) == Ok(option.fare)
  }

  lemma OfferedInOrder(trip: Trip, classes: seq<ClassOption>)
    requires ClassesOf(classes) == Offered(trip.seats, CLASS_ORDER)
    ensures ClassesAsOffered(trip, classes)
  {
    var offered := Offered(trip.seats, CLASS_ORDER);
    ThreeClasses(trip.seats);
    assert forall i :: 0 <= i < |classes| ==> classes[i].travelClass == offered[i];
    forall k ensures Listed(classes, k) <==> HasReserved(trip.seats, k) {
      ListedIffOffered(trip.seats, classes, k);
    }
  }

  lemma ListedIffOffered(seats: seq<Seat>, classes: seq<ClassOption>, k: TravelClass)
    requires ClassesOf(classes) == Offered(seats, CLASS_ORDER)
    ensures Listed(classes, k) <==> HasReserved(seats, k)
  {
    var offered := Offered(seats, CLASS_ORDER);
    assert k in CLASS_ORDER by {
      match k
      case First => assert CLASS_ORDER[0] == First;
      case Second => assert CLASS_ORDER[1] == Second;
      case Third => assert CLASS_ORDER[2] == Third;
    }
    if k in offered {
      var i :| 0 <= i < |offered| && offered[i] == k;
      assert classes[i] in classes && classes[i].travelClass == k;
    }
    if option :| option in classes && option.travelClass == k {
      var i :| 0 <= i < |classes| && classes[i] == option;
      assert offered[i] in offered;
    }
  }

  lemma ThreeClasses(seats: seq<Seat>)
    ensures Offered(seats, CLASS_ORDER)
            == (if HasReserved(seats, First) then [First] else [])
               + (if HasReserved(seats, Second) then [Second] else [])
               + (if HasReserved(seats, Third) then [Third] else [])
  {
    assert CLASS_ORDER[..2] == [First, Second] && [First, Second][..1] == [First] && [First][..0] == [];
    assert Offered(seats, [First]) == if HasReserved(seats, First) then [First] else [];
    assert Offered(seats, [First, Second])
        == Offered(seats, [First]) + if HasReserved(seats, Second) then [Second] else [];
  }

  lemma ListedEntryIsTrue(c: Context, w: World, trip: Trip, originCode: string, destCode: string, entry: TrainOption)
    requires WellFormed(c) && trip.id in c.trips && c.trips[trip.id] == trip
    requires OptionFor(c, ExpireDue(w.holds, w.clock), trip, originCode, destCode) == Ok(Some(entry))
    ensures entry.trip == trip.id && 0 <= entry.origin < entry.dest
    ensures EntryIsTrue(c, ExpireDue(w.holds, w.clock), originCode, destCode, entry,
                        LegAvailability(c, w, entry.trip, Span(entry.origin, entry.dest)).1)
  {
    var leg := Span(entry.origin, entry.dest);
    SearchMatchesSeatMap(c, ExpireDue(w.holds, w.clock), trip, leg, CLASS_ORDER);
    OfferedInOrder(trip, entry.classes);
    ListedTrainRuns(c, ExpireDue(w.holds, w.clock), trip, originCode, destCode, entry);
  }

  lemma ListedTrainRuns(c: Context, due: seq<Hold>, trip: Trip, originCode: string, destCode: string,
                        entry: TrainOption)
    requires OptionFor(c, due, trip, originCode, destCode) == Ok(Some(entry))
    ensures 0 <= entry.origin < entry.dest && RunsAsListed(trip, originCode, destCode, entry)
  {
    var leg := Span(entry.origin, entry.dest);
    ServedMeansCalls(trip, leg);
    var i := LastListed(trip.stations, entry.origin);
    var j := LastListed(trip.stations, entry.dest);
    LegsFitTheRoute(trip.stations, leg);
    assert entry.distanceKm == trip.stations[j].km - trip.stations[i].km;
  }

  /** At the same clock search and seat map agree: every entry a search lists is true of its
      train and of what an availability query for that train would show. */
  lemma SearchAgreesWithAvailability(c: Context, w: World, trips: seq<Trip>, originCode: string, destCode: string,
                                     entry: TrainOption)
    requires WellFormed(c) && FromStore(c, trips)
    requires SearchTrains(c, w, trips, originCode, destCode).1.Ok?
    requires entry in SearchTrains(c, w, trips, originCode, destCode).1.value
    ensures 0 <= entry.origin < entry.dest
    ensures EntryIsTrue(c, ExpireDue(w.holds, w.clock), originCode, destCode, entry,
                        LegAvailability(c, w, entry.trip, Span(entry.origin, entry.dest)).1)
  {
    var due := ExpireDue(w.holds, w.clock);
    var offers := OffersFor(c, due, trips, originCode, destCode);
    CollectedIff(offers);
    var i :| 0 <= i < |offers| && offers[i] == Ok(Some(entry));
    ListedEntryIsTrue(c, w, trips[i], originCode, destCode, entry);
  }

  /** And no train that serves the journey is missing from the list. */
  lemma ServingTrainsAreListed(c: Context, w: World, trips: seq<Trip>, originCode: string, destCode: string, trip: Trip)
    requires SearchTrains(c, w, trips, originCode, destCode).1.Ok? && trip in trips
    requires var origin, dest := StationCalled(trip.stations, originCode), StationCalled(trip.stations, destCode);
             && origin.Some? && dest.Some? && 0 <= origin.value.seq_no < dest.value.seq_no
             && Serves(trip.stops, Span(origin.value.seq_no, dest.value.seq_no))
    ensures exists entry :: entry in SearchTrains(c, w, trips, originCode, destCode).1.value && entry.trip == trip.id
  {
    var offers := OffersFor(c, ExpireDue(w.holds, w.clock), trips, originCode, destCode);
    CollectedIff(offers);
    var i :| 0 <= i < |trips| && trips[i] == trip;
    assert offers[i] in offers;
  }
}
