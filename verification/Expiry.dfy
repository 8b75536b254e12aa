/** Lazy expiry: what else a transaction changes when it retires overdue holds on the way. */
module Expiry {
  import opened Outcomes
  import opened Records
  import opened Bookings
  import opened Support
  import opened Transactions
  import opened Invariants
  import opened References

  predicate NothingDue(holds: seq<Hold>, now: int) {
    forall h :: h in holds ==> !Due(h, now)
  }

  lemma ExpiryIsIdleIff(holds: seq<Hold>, now: int)
    ensures ExpireDue(holds, now) == holds <==> NothingDue(holds, now)
  {
    var after := ExpireDue(holds, now);
    forall h | h in holds && Due(h, now) ensures after != holds {
      var i :| 0 <= i < |holds| && holds[i] == h;
      assert after[i].status == Expired;
    }
  }

  /** A query leaves the world as it was exactly when it is refused or no hold is overdue. */
  lemma ReadsLeaveNoTraceIff(c: Context, w: World, command: Command)
    requires OnlyReads(command)
    ensures Step(c, w, command) == w <==> Refused(c, w, command) || NothingDue(w.holds, w.clock)
  {
    ExpiryIsIdleIff(w.holds, w.clock);
    match command
    case VerifyCommand(_) =>
    case AvailabilityCommand(_, _) =>
    case SearchCommand(_, _, _) =>
  }

  /** Verification is refused on sound tables only when the reference is unknown. */
  lemma VerifyRefusedIffUnknown(c: Context, w: World, reference: string)
    requires Sound(c, w)
    ensures VerifyTicket(c, w, reference).1.Err? <==> !Stored(w.holds, reference)
    ensures VerifyTicket(c, w, reference).1.Err? ==> VerifyTicket(c, w, reference).1 == Err(BookingNotFound)
  {
    var due := ExpireDue(w.holds, w.clock);
    ExpiryIsProgress(w.holds, w.clock);
    StoredSurvivesProgress(w.holds, due, reference);
    ProgressKeepsSited(c, w.clock, w.clock, w.holds, due);
  }

  /** Verifying a ticket is read-only, as documented, exactly when the reference is unknown or
      no stored hold, this one or any other, is overdue. */
  lemma VerifyIsReadOnlyIff(c: Context, w: World, reference: string)
    requires Sound(c, w)
    ensures VerifyTicket(c, w, reference).0 == w <==> !Stored(w.holds, reference) || NothingDue(w.holds, w.clock)
  {
    VerifyRefusedIffUnknown(c, w, reference);
    ReadsLeaveNoTraceIff(c, w, VerifyCommand(reference));
  }

  predicate Elsewhere(h: Hold, trip: string, seat: string) {
    h.trip != trip || h.seat != seat
  }

  /** Every record that is on another trip or seat is as it was. */
  ghost predicate ElsewhereUntouched(before: seq<Hold>, after: seq<Hold>, trip: string, seat: string) {
    && |before| <= |after|
    && forall i :: 0 <= i < |before| && Elsewhere(before[i], trip, seat) ==> after[i] == before[i]
  }

  predicate NothingDueElsewhere(holds: seq<Hold>, now: int, trip: string, seat: string) {
    forall h :: h in holds && Elsewhere(h, trip, seat) ==> !Due(h, now)
  }

  lemma ExpiryStaysOnSeatIff(holds: seq<Hold>, now: int, added: Hold, trip: string, seat: string)
    ensures ElsewhereUntouched(holds, ExpireDue(holds, now) + [added], trip, seat) <==>
            NothingDueElsewhere(holds, now, trip, seat)
  {
    var after := ExpireDue(holds, now) + [added];
    forall h | h in holds && Elsewhere(h, trip, seat) && Due(h, now)
      ensures !ElsewhereUntouched(holds, after, trip, seat)
    {
      var i :| 0 <= i < |holds| && holds[i] == h;
      assert after[i].status == Expired;
    }
    if NothingDueElsewhere(holds, now, trip, seat) {
      forall i | 0 <= i < |holds| && Elsewhere(holds[i], trip, seat) ensures after[i] == holds[i] {
        assert holds[i] in holds;
      }
    }
  }

  /** Placing a hold retires overdue holds for the target seat alone, as planned, exactly when
      no hold on any other seat or trip is overdue. */
  lemma HoldRetiresItsSeatOnlyIff(c: Context, w: World, r: HoldRequest)
    requires WellFormed(c) && Sound(c, w) && HoldSucceeds(c, w, r)
    ensures ElsewhereUntouched(w.holds, HoldSeat(c, w, r).0.holds, r.trip, r.seat) <==>
            NothingDueElsewhere(w.holds, w.clock, r.trip, r.seat)
  {
    HoldSeatInserts(c, w, r);
    ExpiryStaysOnSeatIff(w.holds, w.clock, HoldSeat(c, w, r).1.value, r.trip, r.seat);
  }

  /** The same for a counter sale and the seat it assigns. */
  lemma SaleRetiresItsSeatOnlyIff(c: Context, w: World, r: SaleRequest)
    requires WellFormed(c) && Sound(c, w) && SaleSucceeds(c, w, r)
    ensures var (w', outcome) := SellUnreserved(c, w, r);
            var ticket := outcome.value.ticket;
            ElsewhereUntouched(w.holds, w'.holds, ticket.trip, ticket.seat) <==>
            NothingDueElsewhere(w.holds, w.clock, ticket.trip, ticket.seat)
  {
    SaleInserts(c, w, r);
    var ticket := SellUnreserved(c, w, r).1.value.ticket;
    ExpiryStaysOnSeatIff(w.holds, w.clock, ticket, ticket.trip, ticket.seat);
  }
}
