/** Transactions that leave the table alone: refusals, and requests whose reference is known. */
module Replays {
  import opened Outcomes
  import opened Records
  import opened Bookings
  import opened Support
  import opened Transactions
  import opened Invariants
  import opened Ledger
  import opened References
  import opened Lifecycle

  /** In every reachable state a refused transaction leaves the table and the clock exactly as
      they were, undoing the expiries inside it, and takes no money. */
  lemma RefusalsLeaveNoTrace(c: Context, clock: int, commands: seq<Command>, command: Command)
    requires WellFormed(c) && Refused(c, Run(c, clock, commands), command)
    ensures var w := Run(c, clock, commands);
            var w' := Step(c, w, command);
            w'.holds == w.holds && w'.clock == w.clock && Accepted(w'.charges) == Accepted(w.charges)
  {
    var w := Run(c, clock, commands);
    RunsAreSound(c, clock, commands);
    match command
    case SellCommand(r) =>
      SaleElseUnchanged(c, w, r);
      SaleElseUncharged(c, w, r);
    case HoldCommand(r) => HoldSeatElseUnchanged(c, w, r);
    case ConfirmCommand(id, accepted) => ConfirmRefusedFree(c, w, id, accepted);
    case CancelCommand(_) =>
    case VerifyCommand(_) =>
    case AvailabilityCommand(_, _) =>
    case SearchCommand(_, _, _) =>
  }

  lemma ConfirmRefusedFree(c: Context, w: World, id: string, accepted: bool)
    requires ConfirmBooking(c, w, id, accepted).1.Err?
    ensures var w' := ConfirmBooking(c, w, id, accepted).0;
            w'.holds == w.holds && w'.clock == w.clock && Accepted(w'.charges) == Accepted(w.charges)
  {
    var w' := ConfirmBooking(c, w, id, accepted).0;
    ConfirmElseUnchanged(c, w, id, accepted);
    if w' != w {
      AcceptedOfMore(w.charges, w'.charges[|w.charges|]);
    }
  }

  // ---- replays --------------------------------------------------------------------------------

  /** The first booking under a reference stays the first, however the table grows. */
  lemma FirstStaysFirst(earlier: seq<Hold>, later: seq<Hold>, reference: string)
    requires Later(earlier, later) && ByReference(earlier, reference).Some?
    ensures ByReference(later, reference).Some?
    ensures Advances(ByReference(earlier, reference).value, ByReference(later, reference).value)
  {
    var at := FirstPosition(earlier, reference);
    forall i | 0 <= i <= at ensures later[i].reference == earlier[i].reference {
      assert Advances(earlier[i], later[i]);
    }
    FirstAtPosition(later, at);
  }

  /** Once a reference is stored, then after any continuation of the run, even one in which the
      reference clashes with another booking's, a request that repeats it is answered with the
      very booking, as far along as it has come, and changes nothing: no second booking, no
      name drawn, no charge, no expiry kept. */
  lemma ReplaysChangeNothing(c: Context, clock: int, commands: seq<Command>, more: seq<Command>,
                             hold: HoldRequest, sale: SaleRequest, reference: string)
    requires WellFormed(c) && Stored(Run(c, clock, commands).holds, reference)
    requires hold.reference == Some(reference) && sale.reference == Some(reference)
    ensures var known, w := ByReference(Run(c, clock, commands).holds, reference), Run(c, clock, commands + more);
            var now := ByReference(w.holds, reference);
            && known.Some? && now.Some? && Advances(known.value, now.value)
            && HoldSeat(c, w, hold) == (w, Ok(now.value))
            && SellUnreserved(c, w, sale) == (w, Ok(Sale(now.value, None)))
  {
    ContinuationsOnlyAdvance(c, clock, commands, more);
    FirstStaysFirst(Run(c, clock, commands).holds, Run(c, clock, commands + more).holds, reference);
    RunsAreSound(c, clock, commands + more);
    var w := Run(c, clock, commands + more);
    assert Sited(c, w.clock, ByReference(w.holds, reference).value);
  }

  lemma RunOneMore(c: Context, clock: int, commands: seq<Command>, command: Command)
    ensures Run(c, clock, commands + [command]) == Step(c, Run(c, clock, commands), command)
  {
    assert (commands + [command])[..|commands|] == commands;
  }

  lemma NewBookingIsFirst(due: seq<Hold>, h: Hold, holds: seq<Hold>, now: int)
    requires due == ExpireDue(holds, now) && ByReference(holds, h.reference).None?
    ensures ByReference(due + [h], h.reference) == Some(h)
  {
    ExpiryIsProgress(holds, now);
    StoredSurvivesProgress(holds, due, h.reference);
    assert (due + [h])[..|due|] == due;
  }

  /** After a hold that succeeded under a reference of the caller's, the table's first booking
      under that reference is the one that was returned. */
  lemma HoldIsFiled(c: Context, w: World, r: HoldRequest)
    requires WellFormed(c) && Sound(c, w) && Supplied(r.reference) && HoldSeat(c, w, r).1.Ok?
    ensures ByReference(HoldSeat(c, w, r).0.holds, r.reference.value) == Some(HoldSeat(c, w, r).1.value)
  {
    if HoldSucceeds(c, w, r) {
      HoldSeatShape(c, w, r);
      HoldSeatInserts(c, w, r);
      NewBookingIsFirst(ExpireDue(w.holds, w.clock), HoldSeat(c, w, r).1.value, w.holds, w.clock);
    }
  }

  lemma SaleIsFiled(c: Context, w: World, r: SaleRequest)
    requires WellFormed(c) && Sound(c, w) && Supplied(r.reference) && SellUnreserved(c, w, r).1.Ok?
    ensures var (w', outcome) := SellUnreserved(c, w, r);
            ByReference(w'.holds, r.reference.value) == Some(outcome.value.ticket)
  {
    if SaleSucceeds(c, w, r) {
      var fare := SaleShape(c, w, r);
      SaleInserts(c, w, r);
      NewBookingIsFirst(ExpireDue(w.holds, w.clock), SellUnreserved(c, w, r).1.value.ticket, w.holds, w.clock);
    }
  }

  /** Retrying a successful hold under one's own reference is idempotent for ever: whatever
      happens in between, the same request returns the same booking, as far along as it has
      come, and changes nothing. */
  lemma HoldRetryIsIdempotent(c: Context, clock: int, commands: seq<Command>, r: HoldRequest, more: seq<Command>)
    requires WellFormed(c) && Supplied(r.reference)
    requires HoldSeat(c, Run(c, clock, commands), r).1.Ok?
    ensures var first := HoldSeat(c, Run(c, clock, commands), r).1.value;
            var w := Run(c, clock, commands + [HoldCommand(r)] + more);
            var (w', again) := HoldSeat(c, w, r);
            w' == w && again.Ok? && Advances(first, again.value)
  {
    var w0, upTo := Run(c, clock, commands), commands + [HoldCommand(r)];
    RunsAreSound(c, clock, commands);
    HoldIsFiled(c, w0, r);
    RunOneMore(c, clock, commands, HoldCommand(r));
    ContinuationsOnlyAdvance(c, clock, upTo, more);
    FirstStaysFirst(Run(c, clock, upTo).holds, Run(c, clock, upTo + more).holds, r.reference.value);
  }

  /** Retrying a successful counter sale sells and charges nothing again, and returns the same
      ticket, but without the standing prediction: the answer is the first one again exactly
      when there was no prediction and the ticket has not been cancelled since. */
  lemma SaleRetryReturnsTheTicket(c: Context, clock: int, commands: seq<Command>, r: SaleRequest, more: seq<Command>)
    requires WellFormed(c) && Supplied(r.reference)
    requires SellUnreserved(c, Run(c, clock, commands), r).1.Ok?
    ensures var first := SellUnreserved(c, Run(c, clock, commands), r).1;
            var w := Run(c, clock, commands + [SellCommand(r)] + more);
            var (w', again) := SellUnreserved(c, w, r);
            && w' == w && again.Ok? && again.value.offer == None
            && Advances(first.value.ticket, again.value.ticket)
            && (again == first <==> first.value.offer.None? && again.value.ticket.status == first.value.ticket.status)
            && (more == [] ==> again.value.ticket == first.value.ticket)
  {
    var w0, upTo := Run(c, clock, commands), commands + [SellCommand(r)];
    RunsAreSound(c, clock, commands);
    SaleIsFiled(c, w0, r);
    RunOneMore(c, clock, commands, SellCommand(r));
    ContinuationsOnlyAdvance(c, clock, upTo, more);
    FirstStaysFirst(Run(c, clock, upTo).holds, Run(c, clock, upTo + more).holds, r.reference.value);
    RunsAreSound(c, clock, upTo + more);
    var known := ByReference(Run(c, clock, upTo + more).holds, r.reference.value).value;
    assert Sited(c, Run(c, clock, upTo + more).clock, known);
    if more == [] {
      assert upTo + more == upTo;
    }
  }
}
