/** Money: accepted charges against bookings ever paid. */
module Ledger {
  import opened Outcomes
  import opened Records
  import opened Bookings
  import opened Support
  import opened Transactions
  import opened Invariants

  type Entry = (string, int)

  /** Reference and amount of every charge the gateway accepted, in order. */
  function Accepted(charges: seq<Charge>): seq<Entry> {
    if charges == [] then
      []
    else
      var last := charges[|charges| - 1];
      Accepted(charges[..|charges| - 1]) + if last.accepted then [(last.reference, last.cents)] else []
  }

  /** Reference and fare of the bookings with these ids, in table order. */
  function FaresOf(holds: seq<Hold>, ids: set<string>): seq<Entry> {
    if holds == [] then
      []
    else
      var last := holds[|holds| - 1];
      FaresOf(holds[..|holds| - 1], ids) + if last.id in ids then [(last.reference, last.fare)] else []
  }

  function PaidIds(holds: seq<Hold>): set<string> {
    set h | h in holds && PaidFor(h.status) :: h.id
  }

  /** Ids of the bookings that were CONFIRMED or STANDING in some state of the run. */
  ghost function EverPaid(c: Context, clock: int, commands: seq<Command>): set<string> {
    PaidIds(Run(c, clock, commands).holds)
    + if commands == [] then {} else EverPaid(c, clock, commands[..|commands| - 1])
  }

  /** After the first k commands the booking's record is confirmed or standing. */
  ghost predicate PaidAfter(c: Context, clock: int, commands: seq<Command>, k: int, id: string)
    requires 0 <= k <= |commands|
  {
    exists h :: h in Run(c, clock, commands[..k]).holds && h.id == id && (h.status == Confirmed || h.status == Standing)
  }

  lemma PaidAfterPrefix(c: Context, clock: int, commands: seq<Command>, k: int, id: string)
    requires 0 <= k < |commands|
    ensures PaidAfter(c, clock, commands[..|commands| - 1], k, id) <==> PaidAfter(c, clock, commands, k, id)
  {
    assert commands[..|commands| - 1][..k] == commands[..k];
  }

  lemma PaidNowMeans(c: Context, clock: int, commands: seq<Command>, id: string)
    ensures id in PaidIds(Run(c, clock, commands).holds) <==> PaidAfter(c, clock, commands, |commands|, id)
  {
    assert commands[..|commands|] == commands;
  }

  /** A booking was ever paid exactly when, after some number of commands, its record was
      confirmed or standing. */
  lemma EverPaidMeans(c: Context, clock: int, commands: seq<Command>, id: string)
    ensures id in EverPaid(c, clock, commands) <==>
            exists k :: 0 <= k <= |commands| && PaidAfter(c, clock, commands, k, id)
  {
    if id in EverPaid(c, clock, commands) {
      var k := PaidAtSomeTime(c, clock, commands, id);
    }
    if k :| 0 <= k <= |commands| && PaidAfter(c, clock, commands, k, id) {
      PaidForEver(c, clock, commands, k, id);
    }
  }

  lemma {:induction false} PaidAtSomeTime(c: Context, clock: int, commands: seq<Command>, id: string) returns (k: int)
    requires id in EverPaid(c, clock, commands)
    ensures 0 <= k <= |commands| && PaidAfter(c, clock, commands, k, id)
  {
    PaidNowMeans(c, clock, commands, id);
    k := |commands|;
    if id !in PaidIds(Run(c, clock, commands).holds) {
      k := PaidAtSomeTime(c, clock, commands[..|commands| - 1], id);
      PaidAfterPrefix(c, clock, commands, k, id);
    }
  }

  lemma {:induction false} PaidForEver(c: Context, clock: int, commands: seq<Command>, k: int, id: string)
    requires 0 <= k <= |commands| && PaidAfter(c, clock, commands, k, id)
    ensures id in EverPaid(c, clock, commands)
  {
    if k == |commands| {
      PaidNowMeans(c, clock, commands, id);
    } else {
      PaidAfterPrefix(c, clock, commands, k, id);
      PaidForEver(c, clock, commands[..|commands| - 1], k, id);
    }
  }

  /** Which bookings have been paid, as far as their present status tells. */
  ghost predicate PaidMatches(holds: seq<Hold>, paid: set<string>) {
    && (forall h :: h in holds && PaidFor(h.status) ==> h.id in paid)
    && (forall h :: h in holds && (h.status == Held || h.status == Expired) ==> h.id !in paid)
    && (forall id :: id in paid ==> exists h :: h in holds && h.id == id)
  }

  /** The books balance: the accepted charges are exactly the fares of the paid bookings. */
  ghost predicate Balanced(holds: seq<Hold>, charges: seq<Charge>, paid: set<string>) {
    PaidMatches(holds, paid) && multiset(Accepted(charges)) == multiset(FaresOf(holds, paid))
  }

  lemma AcceptedOfMore(charges: seq<Charge>, charge: Charge)
    ensures Accepted(charges + [charge])
            == Accepted(charges) + if charge.accepted then [(charge.reference, charge.cents)] else []
  {
    assert (charges + [charge])[..|charges|] == charges;
  }

  lemma FaresOfMore(holds: seq<Hold>, h: Hold, ids: set<string>)
    ensures FaresOf(holds + [h], ids) == FaresOf(holds, ids) + if h.id in ids then [(h.reference, h.fare)] else []
  {
    assert (holds + [h])[..|holds|] == holds;
  }

  lemma {:induction false} FaresSurviveProgress(a: seq<Hold>, b: seq<Hold>, ids: set<string>)
    requires Progress(a, b)
    ensures FaresOf(a, ids) == FaresOf(b, ids)
  {
    if a != [] {
      FaresSurviveProgress(a[..|a| - 1], b[..|b| - 1], ids);
      assert Advances(a[|a| - 1], b[|b| - 1]);
    }
  }

  lemma {:induction false} FaresIgnoreAbsentIds(holds: seq<Hold>, ids: set<string>, id: string)
    requires forall h :: h in holds ==> h.id != id
    ensures FaresOf(holds, ids + {id}) == FaresOf(holds, ids)
  {
    if holds != [] {
      assert holds[|holds| - 1] in holds;
      FaresIgnoreAbsentIds(holds[..|holds| - 1], ids, id);
    }
  }

  lemma {:induction false} FaresOfNewlyPaid(holds: seq<Hold>, ids: set<string>, at: nat)
    requires Keyed(holds) && at < |holds| && holds[at].id !in ids
    ensures multiset(FaresOf(holds, ids + {holds[at].id}))
            == multiset(FaresOf(holds, ids)) + multiset{(holds[at].reference, holds[at].fare)}
  {
    var before, last := holds[..|holds| - 1], holds[|holds| - 1];
    assert holds == before + [last];
    FaresOfMore(before, last, ids);
    FaresOfMore(before, last, ids + {holds[at].id});
    if at == |holds| - 1 {
      FaresIgnoreAbsentIds(before, ids, last.id);
    } else {
      assert before[at] == holds[at] && last.id != holds[at].id;
      FaresOfNewlyPaid(before, ids, at);
    }
  }

  // ---- each kind of step ------------------------------------------------------------------------

  lemma OnlyHeldExpires(a: Status, b: Status)
    ensures Successor(a, b) && b == Expired ==> a == Held
  {
    if Successor(a, b) && b == Expired {
      var e :| Apply(a, e) == Ok(b);
    }
  }

  lemma UnpaidProgressMatches(a: seq<Hold>, b: seq<Hold>, paid: set<string>)
    requires PaidMatches(a, paid) && Progress(a, b)
    requires forall i :: 0 <= i < |a| && PaidFor(b[i].status) ==> PaidFor(a[i].status)
    ensures PaidMatches(b, paid)
  {
    forall h | h in b
      ensures PaidFor(h.status) ==> h.id in paid
      ensures h.status == Held || h.status == Expired ==> h.id !in paid
    {
      var i :| 0 <= i < |b| && b[i] == h;
      assert Advances(a[i], b[i]) && a[i] in a;
      TransitionsOnlyClimb(a[i].status, b[i].status);
      OnlyHeldExpires(a[i].status, b[i].status);
    }
    forall id | id in paid ensures exists h :: h in b && h.id == id {
      var g :| g in a && g.id == id;
      var i :| 0 <= i < |a| && a[i] == g;
      assert Advances(a[i], b[i]) && b[i] in b;
    }
  }

  /** Bookings advance without any being paid. */
  lemma UnpaidStepBalances(a: seq<Hold>, b: seq<Hold>, charges: seq<Charge>, paid: set<string>)
    requires Balanced(a, charges, paid) && Progress(a, b)
    requires forall i :: 0 <= i < |a| && PaidFor(b[i].status) ==> PaidFor(a[i].status)
    ensures Balanced(b, charges, paid)
  {
    UnpaidProgressMatches(a, b, paid);
    FaresSurviveProgress(a, b, paid);
  }

  lemma ExpiryBalances(holds: seq<Hold>, now: int, charges: seq<Charge>, paid: set<string>)
    requires Balanced(holds, charges, paid)
    ensures Balanced(ExpireDue(holds, now), charges, paid)
  {
    ExpiryIsProgress(holds, now);
    UnpaidStepBalances(holds, ExpireDue(holds, now), charges, paid);
  }

  lemma PaymentMatches(due: seq<Hold>, paid: set<string>, at: nat)
    requires Keyed(due) && PaidMatches(due, paid) && at < |due|
    ensures PaidMatches(WithStatus(due, at, Confirmed), paid + {due[at].id})
  {
    var id, after := due[at].id, WithStatus(due, at, Confirmed);
    forall i | 0 <= i < |after|
      ensures after[i].id == due[i].id
      ensures i != at ==> after[i] == due[i] && due[i] in due && after[i].id != id
    {
      assert i < at ==> due[i].id != due[at].id;
      assert at < i ==> due[at].id != due[i].id;
    }
    forall x | x in paid + {id} ensures exists h :: h in after && h.id == x {
      if x == id {
        assert after[at] in after;
      } else {
        var g :| g in due && g.id == x;
        var i :| 0 <= i < |due| && due[i] == g;
        assert after[i] in after;
      }
    }
  }

  /** One held booking is paid, at its stored fare. */
  lemma PaymentBalances(due: seq<Hold>, charges: seq<Charge>, paid: set<string>, at: nat)
    requires Keyed(due) && Balanced(due, charges, paid)
    requires at < |due| && due[at].status == Held
    ensures Balanced(WithStatus(due, at, Confirmed),
                     charges + [Charge(due[at].reference, due[at].fare, true)], paid + {due[at].id})
  {
    assert due[at] in due;
    PaymentMatches(due, paid, at);
    StatusChangeIsProgress(due, at, Confirm);
    assert Apply(Held, Confirm).value == Confirmed;
    FaresSurviveProgress(due, WithStatus(due, at, Confirmed), paid + {due[at].id});
    FaresOfNewlyPaid(due, paid, at);
    AcceptedOfMore(charges, Charge(due[at].reference, due[at].fare, true));
  }

  lemma InsertMatches(due: seq<Hold>, paid: set<string>, h: Hold)
    requires PaidMatches(due, paid) && (forall g :: g in due ==> g.id != h.id)
    requires PaidFor(h.status) || h.status == Held
    ensures PaidMatches(due + [h], if PaidFor(h.status) then paid + {h.id} else paid)
    ensures h.id !in paid
  {
    var after := if PaidFor(h.status) then paid + {h.id} else paid;
    assert forall g :: g in due + [h] <==> g in due || g == h;
    forall id | id in after ensures exists g :: g in due + [h] && g.id == id {
      if id == h.id {
        assert h in due + [h];
      } else {
        var g :| g in due && g.id == id;
        assert g in due + [h];
      }
    }
  }

  /** A booking is appended: an unpaid hold without a charge, or a ticket with its charge. */
  lemma InsertBalances(due: seq<Hold>, charges: seq<Charge>, paid: set<string>, h: Hold)
    requires Balanced(due, charges, paid) && (forall g :: g in due ==> g.id != h.id)
    ensures h.status == Held ==> Balanced(due + [h], charges, paid)
    ensures PaidFor(h.status) ==> Balanced(due + [h], charges + [Charge(h.reference, h.fare, true)], paid + {h.id})
  {
    if PaidFor(h.status) || h.status == Held {
      InsertMatches(due, paid, h);
    }
    FaresOfMore(due, h, paid);
    FaresOfMore(due, h, paid + {h.id});
    FaresIgnoreAbsentIds(due, paid, h.id);
    AcceptedOfMore(charges, Charge(h.reference, h.fare, true));
  }

  // ---- every step, every run ----------------------------------------------------------------------

  /** What a transaction newly marks as paid is what it charged for. */
  lemma StepBalances(c: Context, w: World, command: Command, paid: set<string>) returns (after: set<string>)
    requires WellFormed(c) && Sound(c, w) && Balanced(w.holds, w.charges, paid)
    ensures paid <= after <= paid + PaidIds(Step(c, w, command).holds)
    ensures Balanced(Step(c, w, command).holds, Step(c, w, command).charges, after)
  {
    if command.SellCommand? {
      after := SaleBalances(c, w, command.sale, paid);
    } else if command.ConfirmCommand? {
      after := ConfirmBalances(c, w, command.id, command.accepted, paid);
    } else {
      after := paid;
      UnpaidCommandBalances(c, w, command, paid);
    }
  }

  lemma UnpaidCommandBalances(c: Context, w: World, command: Command, paid: set<string>)
    requires WellFormed(c) && Sound(c, w) && Balanced(w.holds, w.charges, paid)
    requires !command.SellCommand? && !command.ConfirmCommand?
    ensures Balanced(Step(c, w, command).holds, Step(c, w, command).charges, paid)
  {
    match command
    case HoldCommand(r) => HoldBalances(c, w, r, paid);
    case CancelCommand(id) => CancelBalances(w, id, paid);
    case TickCommand(_) =>
    case _ => ReadBalances(c, w, command, paid);
  }

  lemma ReadBalances(c: Context, w: World, command: Command, paid: set<string>)
    requires OnlyReads(command) && Balanced(w.holds, w.charges, paid)
    ensures Balanced(Step(c, w, command).holds, Step(c, w, command).charges, paid)
  {
    ReadsOnlyExpire(c, w, command);
    ExpiryBalances(w.holds, w.clock, w.charges, paid);
  }

  lemma FreshAmongDue(c: Context, w: World)
    requires Sound(c, w)
    ensures forall g :: g in ExpireDue(w.holds, w.clock) ==> g.id != IdOf(c, w.ids)
  {
    FreshIdNotStored(c, w);
  }

  lemma CancelBalances(w: World, id: string, paid: set<string>)
    requires Balanced(w.holds, w.charges, paid)
    ensures Balanced(CancelBooking(w, id).0.holds, CancelBooking(w, id).0.charges, paid)
  {
    if CancelBooking(w, id).1.Ok? {
      CancelMoves(w, id);
      UnpaidStepBalances(w.holds, CancelBooking(w, id).0.holds, w.charges, paid);
    }
  }

  lemma ConfirmBalances(c: Context, w: World, id: string, accepted: bool, paid: set<string>)
    returns (after: set<string>)
    requires Sound(c, w) && Balanced(w.holds, w.charges, paid)
    ensures paid <= after <= paid + PaidIds(ConfirmBooking(c, w, id, accepted).0.holds)
    ensures Balanced(ConfirmBooking(c, w, id, accepted).0.holds, ConfirmBooking(c, w, id, accepted).0.charges, after)
  {
    after := paid;
    if ConfirmBooking(c, w, id, accepted).1.Ok? {
      var at := ConfirmShape(c, w, id, accepted);
      after := paid + {id};
      PaidOnTimeBalances(c, w, at, paid);
    } else {
      ConfirmElseUnchanged(c, w, id, accepted);
      var charges := ConfirmBooking(c, w, id, accepted).0.charges;
      if charges != w.charges {
        AcceptedOfMore(w.charges, charges[|w.charges|]);
      }
    }
  }

  lemma PaidOnTimeBalances(c: Context, w: World, at: nat, paid: set<string>)
    requires Sound(c, w) && Balanced(w.holds, w.charges, paid)
    requires at < |w.holds| && w.holds[at].status == Held && w.clock < w.holds[at].heldUntil
    ensures var holds := WithStatus(ExpireDue(w.holds, w.clock), at, Confirmed);
            && Balanced(holds, w.charges + [Charge(w.holds[at].reference, w.holds[at].fare, true)],
                        paid + {w.holds[at].id})
            && w.holds[at].id in PaidIds(holds)
  {
    var due := ExpireDue(w.holds, w.clock);
    ExpiryBalances(w.holds, w.clock, w.charges, paid);
    ExpiryIsProgress(w.holds, w.clock);
    QuietKeepsSound(c, w, w.(holds := due));
    PaymentBalances(due, w.charges, paid, at);
    assert WithStatus(due, at, Confirmed)[at] in WithStatus(due, at, Confirmed);
  }

  lemma HoldBalances(c: Context, w: World, r: HoldRequest, paid: set<string>)
    requires WellFormed(c) && Sound(c, w) && Balanced(w.holds, w.charges, paid)
    ensures Balanced(HoldSeat(c, w, r).0.holds, HoldSeat(c, w, r).0.charges, paid)
  {
    HoldSeatElseUnchanged(c, w, r);
    if HoldSucceeds(c, w, r) {
      HoldSeatInserts(c, w, r);
      ExpiryBalances(w.holds, w.clock, w.charges, paid);
      FreshAmongDue(c, w);
      InsertBalances(ExpireDue(w.holds, w.clock), w.charges, paid, HoldSeat(c, w, r).1.value);
    }
  }

  lemma SaleElseUncharged(c: Context, w: World, r: SaleRequest)
    requires WellFormed(c) && Sound(c, w)
    ensures !SaleSucceeds(c, w, r) ==> Accepted(SellUnreserved(c, w, r).0.charges) == Accepted(w.charges)
  {
    var due := ExpireDue(w.holds, w.clock);
    if !SaleSucceeds(c, w, r) && SellUnreserved(c, w, r).0.charges != w.charges {
      var fare := PriceLeg(c, due, c.trips[r.trip], r.leg, r.travelClass).value;
      SaleInsertSucceeds(c, w, r, fare);
      AcceptedOfMore(w.charges, Charge(NameFor(c, r.reference, w.refs), fare, false));
    }
  }

  lemma SaleBalances(c: Context, w: World, r: SaleRequest, paid: set<string>) returns (after: set<string>)
    requires WellFormed(c) && Sound(c, w) && Balanced(w.holds, w.charges, paid)
    ensures paid <= after <= paid + PaidIds(SellUnreserved(c, w, r).0.holds)
    ensures Balanced(SellUnreserved(c, w, r).0.holds, SellUnreserved(c, w, r).0.charges, after)
  {
    after := paid;
    SaleElseUnchanged(c, w, r);
    SaleElseUncharged(c, w, r);
    if SaleSucceeds(c, w, r) {
      var fare := SaleShape(c, w, r);
      SaleInserts(c, w, r);
      ExpiryBalances(w.holds, w.clock, w.charges, paid);
      FreshAmongDue(c, w);
      var w', ticket := SellUnreserved(c, w, r).0, SellUnreserved(c, w, r).1.value.ticket;
      InsertBalances(ExpireDue(w.holds, w.clock), w.charges, paid, ticket);
      assert ticket in w'.holds;
      after := paid + {ticket.id};
    }
  }

  /** Over any run, the charges the gateway accepted are exactly the fares of the bookings that
      were ever paid; confirmed and standing bookings are among those, held and expired are not. */
  lemma {:induction false} BooksAlwaysBalance(c: Context, clock: int, commands: seq<Command>)
    requires WellFormed(c)
    ensures Balanced(Run(c, clock, commands).holds, Run(c, clock, commands).charges, EverPaid(c, clock, commands))
  {
    var w' := Run(c, clock, commands);
    if commands == [] {
      assert w'.holds == [] && PaidIds(w'.holds) == {};
    } else {
      var before := commands[..|commands| - 1];
      BooksAlwaysBalance(c, clock, before);
      RunsAreSound(c, clock, before);
      var after := StepBalances(c, Run(c, clock, before), commands[|commands| - 1], EverPaid(c, clock, before));
      assert EverPaid(c, clock, commands) == after;
    }
  }
}
