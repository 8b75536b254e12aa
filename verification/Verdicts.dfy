/** What the gate's verdicts mean, and how long a paid ticket stays good. */
module Verdicts {
  import opened Outcomes
  import opened Records
  import opened Bookings
  import opened Support
  import opened Transactions
  import opened Invariants
  import opened Ledger
  import opened References
  import opened Lifecycle
  import opened Requests
  import opened Replays
  import opened Expiry

  /** The at-th record is the first one stored under the reference. */
  ghost predicate FirstUnder(holds: seq<Hold>, reference: string, at: int) {
    0 <= at < |holds| && holds[at].reference == reference
    && forall i :: 0 <= i < at ==> holds[i].reference != reference
  }

  /** What each verdict means for the stored record, when the clock reads now. */
  ghost predicate Means(verdict: Verdict, h: Hold, now: int) {
    && (verdict == Valid <==> h.status == Confirmed || h.status == Standing)
    && (verdict == Unpaid <==> h.status == Held && now < h.heldUntil)
    && (verdict == VoidCancelled <==> h.status == Cancelled)
    && (verdict == VoidExpired <==> h.status == Expired || (h.status == Held && h.heldUntil <= now))
  }

  lemma ExpiryKeepsFirst(holds: seq<Hold>, now: int, reference: string, at: nat)
    requires FirstUnder(holds, reference, at)
    ensures ByReference(ExpireDue(holds, now), reference) == Some(Lapsed(holds[at], now))
  {
    var due := ExpireDue(holds, now);
    assert forall i :: 0 <= i < |holds| ==> due[i].reference == holds[i].reference;
    FirstAtPosition(due, at);
  }

  /** Verification answers for the first record under the reference, with the verdict that its
      stored status and deadline call for. */
  lemma VerdictForRecord(c: Context, w: World, reference: string, at: nat)
    requires Sound(c, w) && FirstUnder(w.holds, reference, at)
    ensures var outcome, h := VerifyTicket(c, w, reference).1, w.holds[at];
            && outcome.Ok? && Means(outcome.value.0, h, w.clock)
            && outcome.value.1 == if h.status == Held && h.heldUntil <= w.clock then h.(status := Expired) else h
  {
    ExpiryKeepsFirst(w.holds, w.clock, reference, at);
    assert w.holds[at] in w.holds && Sited(c, w.clock, w.holds[at]);
  }

  /** The gate's verdicts, in every reachable state: a reference is unknown exactly when no record
      carries it; otherwise the answer is for the first record that does, valid iff confirmed or
      standing, unpaid iff held before its deadline, cancelled iff cancelled, expired iff lapsed;
      and valid iff the booking was paid at some time and is not cancelled. */
  lemma VerdictsTellTheTruth(c: Context, clock: int, commands: seq<Command>, reference: string) returns (at: int)
    requires WellFormed(c)
    ensures var w, paid := Run(c, clock, commands), EverPaid(c, clock, commands);
            var outcome := VerifyTicket(c, w, reference).1;
            && (outcome == Err(BookingNotFound) <==> forall h :: h in w.holds ==> h.reference != reference)
            && (outcome.Err? ==> outcome == Err(BookingNotFound))
            && (outcome.Ok? ==>
                  && FirstUnder(w.holds, reference, at)
                  && Means(outcome.value.0, w.holds[at], w.clock)
                  && outcome.value.1 == Lapsed(w.holds[at], w.clock)
                  && (outcome.value.0 == Valid <==> w.holds[at].id in paid && w.holds[at].status != Cancelled))
  {
    var w, paid := Run(c, clock, commands), EverPaid(c, clock, commands);
    RunsAreSound(c, clock, commands);
    VerifyRefusedIffUnknown(c, w, reference);
    at := 0;
    if Stored(w.holds, reference) {
      at := FirstPosition(w.holds, reference);
      VerdictForRecord(c, w, reference, at);
      BooksAlwaysBalance(c, clock, commands);
      StatusTellsPayment(w.holds, paid, at);
    }
  }

  lemma StatusTellsPayment(holds: seq<Hold>, paid: set<string>, at: nat)
    requires PaidMatches(holds, paid) && at < |holds|
    ensures holds[at].status == Confirmed || holds[at].status == Standing <==>
            holds[at].id in paid && holds[at].status != Cancelled
  {
    assert holds[at] in holds;
  }

  // ---- the life of a paid ticket ---------------------------------------------------------------

  /** Only its own cancellation changes a paid booking. */
  lemma StepKeepsPaid(c: Context, w: World, command: Command, at: nat)
    requires WellFormed(c) && Sound(c, w) && at < |w.holds|
    requires w.holds[at].status == Confirmed || w.holds[at].status == Standing
    ensures var w' := Step(c, w, command);
            at < |w'.holds|
            && w'.holds[at] == if command == CancelCommand(w.holds[at].id) then w.holds[at].(status := Cancelled)
                               else w.holds[at]
  {
    match command
    case HoldCommand(r) =>
      HoldSeatElseUnchanged(c, w, r);
      if HoldSucceeds(c, w, r) {
        HoldSeatInserts(c, w, r);
      }
    case SellCommand(r) =>
      SaleElseUnchanged(c, w, r);
      if SaleSucceeds(c, w, r) {
        SaleInserts(c, w, r);
      }
    case ConfirmCommand(id, accepted) => ConfirmKeepsPaid(c, w, id, accepted, at);
    case CancelCommand(id) => CancelEndsPaid(c, w, id, at);
    case TickCommand(_) =>
    case _ => ReadsOnlyExpire(c, w, command);
  }

  lemma ConfirmKeepsPaid(c: Context, w: World, id: string, accepted: bool, at: nat)
    requires Sound(c, w) && at < |w.holds|
    requires w.holds[at].status == Confirmed || w.holds[at].status == Standing
    ensures var w' := ConfirmBooking(c, w, id, accepted).0; at < |w'.holds| && w'.holds[at] == w.holds[at]
  {
    if ConfirmBooking(c, w, id, accepted).1.Ok? {
      var paid := ConfirmShape(c, w, id, accepted);
    } else {
      ConfirmElseUnchanged(c, w, id, accepted);
    }
  }

  lemma CancelEndsPaid(c: Context, w: World, id: string, at: nat)
    requires Sound(c, w) && at < |w.holds|
    requires w.holds[at].status == Confirmed || w.holds[at].status == Standing
    ensures var w' := CancelBooking(w, id).0;
            at < |w'.holds|
            && w'.holds[at] == if id == w.holds[at].id then w.holds[at].(status := Cancelled) else w.holds[at]
  {
    CancelLeaves(c, w, id);
    CancelOutcomes(c, w, id);
    assert w.holds[at] in w.holds;
  }

  /** The at-th record is the paid booking h as it was, or h cancelled. */
  ghost predicate StillThere(holds: seq<Hold>, at: nat, h: Hold, cancelled: bool) {
    at < |holds| && holds[at] == if cancelled then h.(status := Cancelled) else h
  }

  lemma OneMoreCommand(c: Context, w: World, command: Command, at: nat, h: Hold, cancelled: bool)
    requires WellFormed(c) && Sound(c, w) && StillThere(w.holds, at, h, cancelled)
    requires h.status == Confirmed || h.status == Standing
    ensures StillThere(Step(c, w, command).holds, at, h, cancelled || command == CancelCommand(h.id))
  {
    if cancelled {
      CancelledStays(c, w, command, at);
    } else {
      StepKeepsPaid(c, w, command, at);
    }
  }

  /** More commands, from any world. */
  ghost function RunFrom(c: Context, w: World, more: seq<Command>): World {
    if more == [] then w else Step(c, RunFrom(c, w, more[..|more| - 1]), more[|more| - 1])
  }

  lemma {:induction false} RunGoesOn(c: Context, clock: int, commands: seq<Command>, more: seq<Command>)
    ensures Run(c, clock, commands + more) == RunFrom(c, Run(c, clock, commands), more)
    decreases |more|
  {
    if more == [] {
      assert commands + more == commands;
    } else {
      var n := |more| - 1;
      RunGoesOn(c, clock, commands, more[..n]);
      RunOneMore(c, clock, commands + more[..n], more[n]);
      assert commands + more == (commands + more[..n]) + [more[n]];
    }
  }

  /** Whatever else happens, a paid booking stays as it is until its own cancellation, and stays
      cancelled from then on. */
  lemma {:induction false} PaidUntilCancelled(c: Context, w: World, more: seq<Command>, at: nat, h: Hold)
    requires WellFormed(c) && Sound(c, w) && StillThere(w.holds, at, h, false)
    requires h.status == Confirmed || h.status == Standing
    ensures Sound(c, RunFrom(c, w, more))
    ensures StillThere(RunFrom(c, w, more).holds, at, h, CancelCommand(h.id) in more)
  {
    if more != [] {
      var before, last := more[..|more| - 1], more[|more| - 1];
      PaidUntilCancelled(c, w, before, at, h);
      StepKeepsSound(c, RunFrom(c, w, before), last);
      OneMoreCommand(c, RunFrom(c, w, before), last, at, h, CancelCommand(h.id) in before);
      assert more == before + [last];
    }
  }

  lemma CancelledStays(c: Context, w: World, command: Command, at: nat)
    requires WellFormed(c) && Sound(c, w) && at < |w.holds| && w.holds[at].status == Cancelled
    ensures at < |Step(c, w, command).holds| && Step(c, w, command).holds[at] == w.holds[at]
  {
    StepGoesLater(c, w, command);
    assert Advances(w.holds[at], Step(c, w, command).holds[at]);
    TransitionsOnlyClimb(w.holds[at].status, Step(c, w, command).holds[at].status);
  }

  /** A paid ticket that is the first under its reference verifies as valid after any continuation
      of the run, until a cancellation of it is requested; from then on, as cancelled. */
  lemma PaidTicketVerifies(c: Context, clock: int, commands: seq<Command>, more: seq<Command>, at: nat)
    requires WellFormed(c) && at < |Run(c, clock, commands).holds|
    requires var h := Run(c, clock, commands).holds[at]; h.status == Confirmed || h.status == Standing
    requires FirstUnder(Run(c, clock, commands).holds, Run(c, clock, commands).holds[at].reference, at)
    ensures var h, w := Run(c, clock, commands).holds[at], Run(c, clock, commands + more);
            VerifyTicket(c, w, h.reference).1
            == Ok(if CancelCommand(h.id) in more then (VoidCancelled, h.(status := Cancelled)) else (Valid, h))
  {
    var earlier, w := Run(c, clock, commands).holds, Run(c, clock, commands + more);
    RunsAreSound(c, clock, commands);
    RunGoesOn(c, clock, commands, more);
    PaidUntilCancelled(c, Run(c, clock, commands), more, at, earlier[at]);
    ContinuationsOnlyAdvance(c, clock, commands, more);
    forall i | 0 <= i < at ensures w.holds[i].reference != earlier[at].reference {
      assert Advances(earlier[i], w.holds[i]);
    }
    VerdictForRecord(c, w, earlier[at].reference, at);
  }

  /** Once a confirmation has gone through, its reference verifies as valid until cancellation,
      provided it was the first under that reference. */
  lemma ConfirmedTicketVerifies(c: Context, clock: int, commands: seq<Command>, id: string, accepted: bool,
                                more: seq<Command>) returns (at: nat)
    requires WellFormed(c) && ConfirmBooking(c, Run(c, clock, commands), id, accepted).1.Ok?
    ensures at < |Run(c, clock, commands).holds| && Run(c, clock, commands).holds[at].id == id
    ensures var ticket := ConfirmBooking(c, Run(c, clock, commands), id, accepted).1.value;
            var w := Run(c, clock, commands + [ConfirmCommand(id, accepted)] + more);
            ticket.id == id
            && (FirstUnder(Run(c, clock, commands).holds, ticket.reference, at) ==>
                  VerifyTicket(c, w, ticket.reference).1
                  == Ok(if CancelCommand(id) in more then (VoidCancelled, ticket.(status := Cancelled))
                        else (Valid, ticket)))
  {
    var w, upTo := Run(c, clock, commands), commands + [ConfirmCommand(id, accepted)];
    RunsAreSound(c, clock, commands);
    at := ConfirmShape(c, w, id, accepted);
    RunOneMore(c, clock, commands, ConfirmCommand(id, accepted));
    var w' := Run(c, clock, upTo);
    assert w'.holds[at] == ConfirmBooking(c, w, id, accepted).1.value;
    if FirstUnder(w.holds, w.holds[at].reference, at) {
      assert forall i :: 0 <= i < |w.holds| ==> w'.holds[i].reference == w.holds[i].reference;
      PaidTicketVerifies(c, clock, upTo, more, at);
    }
  }

  /** And so does a counter ticket, seated or standing, sold under a reference that was free. */
  lemma SoldTicketVerifies(c: Context, clock: int, commands: seq<Command>, r: SaleRequest, more: seq<Command>)
    requires WellFormed(c) && SaleSucceeds(c, Run(c, clock, commands), r)
    ensures var ticket := SellUnreserved(c, Run(c, clock, commands), r).1.value.ticket;
            var w := Run(c, clock, commands + [SellCommand(r)] + more);
            NewReference(Run(c, clock, commands).holds, Some(ticket.reference)) ==>
              VerifyTicket(c, w, ticket.reference).1
              == Ok(if CancelCommand(ticket.id) in more then (VoidCancelled, ticket.(status := Cancelled))
                    else (Valid, ticket))
  {
    var w, upTo := Run(c, clock, commands), commands + [SellCommand(r)];
    var ticket := SellUnreserved(c, w, r).1.value.ticket;
    RunsAreSound(c, clock, commands);
    SaleInserts(c, w, r);
    RunOneMore(c, clock, commands, SellCommand(r));
    var w', at := Run(c, clock, upTo), |w.holds|;
    assert w'.holds[at] == ticket;
    if NewReference(w.holds, Some(ticket.reference)) {
      forall i | 0 <= i < at ensures w'.holds[i].reference != ticket.reference {
        assert w.holds[i] in w.holds;
      }
      PaidTicketVerifies(c, clock, upTo, more, at);
    }
  }
}
