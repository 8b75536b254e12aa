/** References: when they name one booking, and what that says about its charges. */
module References {
  import opened Outcomes
  import opened Records
  import opened Bookings
  import opened Support
  import opened Identifiers
  import opened Transactions
  import opened Invariants
  import opened Ledger

  ghost predicate UniqueReferences(holds: seq<Hold>) {
    forall i, j :: 0 <= i < j < |holds| ==> holds[i].reference != holds[j].reference
  }

  predicate Stored(holds: seq<Hold>, reference: string) {
    exists h :: h in holds && h.reference == reference
  }

  lemma StoredSurvivesProgress(a: seq<Hold>, b: seq<Hold>, reference: string)
    requires Progress(a, b)
    ensures Stored(a, reference) <==> Stored(b, reference)
    ensures UniqueReferences(a) <==> UniqueReferences(b)
  {
    assert forall i :: 0 <= i < |a| ==>
        Advances(a[i], b[i]) && a[i] in a && b[i] in b && a[i].reference == b[i].reference;
  }

  lemma AppendKeepsUnique(holds: seq<Hold>, h: Hold)
    requires UniqueReferences(holds)
    ensures UniqueReferences(holds + [h]) <==> !Stored(holds, h.reference)
  {
    var more := holds + [h];
    if Stored(holds, h.reference) {
      var g :| g in holds && g.reference == h.reference;
      var i :| 0 <= i < |holds| && holds[i] == g;
      assert more[i].reference == more[|holds|].reference;
    } else {
      assert forall i :: 0 <= i < |holds| ==> holds[i] in holds;
    }
  }

  /** The table after an insert has unique references exactly when the caller supplied the
      reference, or the one about to be generated is not already taken by an earlier caller. */
  lemma UniqueAfterInsertIff(c: Context, holds: seq<Hold>, now: int, reference: Option<string>, refs: nat, h: Hold)
    requires UniqueReferences(holds) && Replayed(holds, reference).None?
    requires h.reference == NameFor(c, reference, refs)
    ensures UniqueReferences(ExpireDue(holds, now) + [h]) <==>
            Supplied(reference) || !Stored(holds, ReferenceOf(c, refs))
  {
    ExpiryIsProgress(holds, now);
    StoredSurvivesProgress(holds, ExpireDue(holds, now), h.reference);
    AppendKeepsUnique(ExpireDue(holds, now), h);
  }

  lemma HoldKeepsUniqueIff(c: Context, w: World, r: HoldRequest)
    requires WellFormed(c) && Sound(c, w) && UniqueReferences(w.holds) && HoldSucceeds(c, w, r)
    ensures UniqueReferences(HoldSeat(c, w, r).0.holds) <==>
            Supplied(r.reference) || !Stored(w.holds, ReferenceOf(c, w.refs))
  {
    HoldSeatShape(c, w, r);
    HoldSeatInserts(c, w, r);
    UniqueAfterInsertIff(c, w.holds, w.clock, r.reference, w.refs, HoldSeat(c, w, r).1.value);
  }

  lemma SaleKeepsUniqueIff(c: Context, w: World, r: SaleRequest)
    requires WellFormed(c) && Sound(c, w) && UniqueReferences(w.holds) && SaleSucceeds(c, w, r)
    ensures UniqueReferences(SellUnreserved(c, w, r).0.holds) <==>
            Supplied(r.reference) || !Stored(w.holds, ReferenceOf(c, w.refs))
  {
    var fare := SaleShape(c, w, r);
    SaleInserts(c, w, r);
    UniqueAfterInsertIff(c, w.holds, w.clock, r.reference, w.refs, SellUnreserved(c, w, r).1.value.ticket);
  }

  // ---- runs whose callers stay out of the generator's names ------------------------------------

  ghost predicate OwnName(c: Context, reference: Option<string>) {
    forall n: nat :: reference != Some(ReferenceOf(c, n))
  }

  ghost predicate AvoidsGenerated(c: Context, command: Command) {
    && (command.HoldCommand? ==> OwnName(c, command.hold.reference))
    && (command.SellCommand? ==> OwnName(c, command.sale.reference))
  }

  ghost predicate NothingAhead(c: Context, holds: seq<Hold>, refs: nat) {
    forall n: nat {:trigger ReferenceOf(c, n)} :: refs <= n ==> !Stored(holds, ReferenceOf(c, n))
  }

  lemma InsertKeepsNothingAhead(c: Context, holds: seq<Hold>, now: int, reference: Option<string>, refs: nat, h: Hold)
    requires NeverRepeats(c.names.reference)
    requires NothingAhead(c, holds, refs) && OwnName(c, reference)
    requires h.reference == NameFor(c, reference, refs)
    ensures NothingAhead(c, ExpireDue(holds, now) + [h], RefsAfter(reference, refs))
  {
    var due := ExpireDue(holds, now);
    ExpiryIsProgress(holds, now);
    forall n: nat | RefsAfter(reference, refs) <= n ensures !Stored(due + [h], ReferenceOf(c, n)) {
      StoredSurvivesProgress(holds, due, ReferenceOf(c, n));
      assert ReferenceOf(c, refs) == ReferenceOf(c, n) ==> refs == n;
      assert reference != Some(ReferenceOf(c, n));
      assert h.reference != ReferenceOf(c, n);
      assert forall g :: g in due + [h] ==> g in due || g == h;
    }
  }

  lemma QuietKeepsNothingAhead(c: Context, w: World, w': World)
    requires Progress(w.holds, w'.holds) && w.refs <= w'.refs
    requires NothingAhead(c, w.holds, w.refs) && UniqueReferences(w.holds)
    ensures NothingAhead(c, w'.holds, w'.refs) && UniqueReferences(w'.holds)
  {
    StoredSurvivesProgress(w.holds, w'.holds, "");
    forall n: nat | w'.refs <= n ensures !Stored(w'.holds, ReferenceOf(c, n)) {
      StoredSurvivesProgress(w.holds, w'.holds, ReferenceOf(c, n));
    }
  }

  lemma RefsNeverFall(c: Context, w: World, command: Command)
    ensures w.refs <= Step(c, w, command).refs
  {
    match command
    case SellCommand(r) => SaleElseUnchanged(c, w, r);
    case HoldCommand(r) => HoldSeatElseUnchanged(c, w, r);
    case ConfirmCommand(_, _) =>
    case CancelCommand(_) =>
    case TickCommand(_) =>
    case _ => ReadsOnlyExpire(c, w, command);
  }

  lemma StepKeepsUnique(c: Context, w: World, command: Command)
    requires WellFormed(c) && NeverRepeats(c.names.reference) && Sound(c, w) && AvoidsGenerated(c, command)
    requires UniqueReferences(w.holds) && NothingAhead(c, w.holds, w.refs)
    ensures UniqueReferences(Step(c, w, command).holds)
    ensures NothingAhead(c, Step(c, w, command).holds, Step(c, w, command).refs)
  {
    var w' := Step(c, w, command);
    RefsNeverFall(c, w, command);
    UnchangedIsProgress(w.holds);
    if command.HoldCommand? && HoldSucceeds(c, w, command.hold) {
      var r := command.hold;
      HoldKeepsUniqueIff(c, w, r);
      HoldSeatShape(c, w, r);
      HoldSeatInserts(c, w, r);
      InsertKeepsNothingAhead(c, w.holds, w.clock, r.reference, w.refs, HoldSeat(c, w, r).1.value);
    } else if command.SellCommand? && SaleSucceeds(c, w, command.sale) {
      var r := command.sale;
      SaleKeepsUniqueIff(c, w, r);
      var fare := SaleShape(c, w, r);
      SaleInserts(c, w, r);
      InsertKeepsNothingAhead(c, w.holds, w.clock, r.reference, w.refs, SellUnreserved(c, w, r).1.value.ticket);
    } else {
      NoInsertIsProgress(c, w, command);
      QuietKeepsNothingAhead(c, w, w');
    }
  }

  lemma NoInsertIsProgress(c: Context, w: World, command: Command)
    requires command.HoldCommand? ==> !HoldSucceeds(c, w, command.hold)
    requires command.SellCommand? ==> !SaleSucceeds(c, w, command.sale)
    ensures Progress(w.holds, Step(c, w, command).holds)
  {
    UnchangedIsProgress(w.holds);
    ExpiryIsProgress(w.holds, w.clock);
    match command
    case HoldCommand(r) => HoldSeatElseUnchanged(c, w, r);
    case SellCommand(r) => SaleElseUnchanged(c, w, r);
    case ConfirmCommand(id, accepted) => ConfirmMoves(c, w, id, accepted);
    case CancelCommand(id) => CancelMoves(w, id);
    case TickCommand(_) =>
    case _ => ReadsOnlyExpire(c, w, command);
  }

  /** When no caller picks a reference of the generator's form, every reference names at most
      one booking, throughout any run. */
  lemma {:induction false} ReferencesStayUnique(c: Context, clock: int, commands: seq<Command>)
    requires WellFormed(c) && NeverRepeats(c.names.reference)
    requires forall command :: command in commands ==> AvoidsGenerated(c, command)
    ensures UniqueReferences(Run(c, clock, commands).holds)
    ensures NothingAhead(c, Run(c, clock, commands).holds, Run(c, clock, commands).refs)
  {
    if commands == [] {
      assert Run(c, clock, commands).holds == [];
    } else {
      var before, last := commands[..|commands| - 1], commands[|commands| - 1];
      assert commands == before + [last];
      assert forall command :: command in before ==> command in commands;
      assert last in commands;
      ReferencesStayUnique(c, clock, before);
      RunsAreSound(c, clock, before);
      StepKeepsUnique(c, Run(c, clock, before), last);
    }
  }

  // ---- charges and bookings, counted ------------------------------------------------------------

  /** A charge of this amount under this reference that the gateway accepted. */
  predicate IsChargeOf(charge: Charge, reference: string, cents: int) {
    charge == Charge(reference, cents, true)
  }

  ghost function ChargesOf(charges: seq<Charge>, reference: string, cents: int): set<nat> {
    set i: nat | i < |charges| && IsChargeOf(charges[i], reference, cents)
  }

  /** A booking under this reference, at this fare, that is among the given ones. */
  predicate IsBookingOf(h: Hold, ids: set<string>, reference: string, cents: int) {
    h.id in ids && h.reference == reference && h.fare == cents
  }

  ghost function BookingsOf(holds: seq<Hold>, ids: set<string>, reference: string, cents: int): set<nat> {
    set i: nat | i < |holds| && IsBookingOf(holds[i], ids, reference, cents)
  }

  lemma OneMoreCharge(charges: seq<Charge>, charge: Charge, reference: string, cents: int)
    ensures |ChargesOf(charges + [charge], reference, cents)|
            == |ChargesOf(charges, reference, cents)| + if IsChargeOf(charge, reference, cents) then 1 else 0
  {
    if IsChargeOf(charge, reference, cents) {
      assert ChargesOf(charges + [charge], reference, cents) == ChargesOf(charges, reference, cents) + {|charges|};
    } else {
      assert ChargesOf(charges + [charge], reference, cents) == ChargesOf(charges, reference, cents);
    }
  }

  lemma OneMoreBooking(holds: seq<Hold>, h: Hold, ids: set<string>, reference: string, cents: int)
    ensures |BookingsOf(holds + [h], ids, reference, cents)|
            == |BookingsOf(holds, ids, reference, cents)| + if IsBookingOf(h, ids, reference, cents) then 1 else 0
  {
    if IsBookingOf(h, ids, reference, cents) {
      assert BookingsOf(holds + [h], ids, reference, cents) == BookingsOf(holds, ids, reference, cents) + {|holds|};
    } else {
      assert BookingsOf(holds + [h], ids, reference, cents) == BookingsOf(holds, ids, reference, cents);
    }
  }

  lemma {:induction false} AcceptedCounts(charges: seq<Charge>, reference: string, cents: int)
    ensures multiset(Accepted(charges))[(reference, cents)] == |ChargesOf(charges, reference, cents)|
  {
    if charges == [] {
      assert ChargesOf(charges, reference, cents) == {};
    } else {
      var before, last := charges[..|charges| - 1], charges[|charges| - 1];
      AcceptedCounts(before, reference, cents);
      AcceptedOfMore(before, last);
      OneMoreCharge(before, last, reference, cents);
      assert charges == before + [last];
    }
  }

  lemma {:induction false} FaresCount(holds: seq<Hold>, ids: set<string>, reference: string, cents: int)
    ensures multiset(FaresOf(holds, ids))[(reference, cents)] == |BookingsOf(holds, ids, reference, cents)|
  {
    if holds == [] {
      assert BookingsOf(holds, ids, reference, cents) == {};
    } else {
      var before, last := holds[..|holds| - 1], holds[|holds| - 1];
      FaresCount(before, ids, reference, cents);
      FaresOfMore(before, last, ids);
      OneMoreBooking(before, last, ids, reference, cents);
      assert holds == before + [last];
    }
  }

  /** Over any run, for every reference and amount, the gateway accepted exactly as many charges
      as there are bookings under that reference at that fare that were ever paid. */
  lemma ChargesMatchBookings(c: Context, clock: int, commands: seq<Command>, reference: string, cents: int)
    requires WellFormed(c)
    ensures var w := Run(c, clock, commands);
            |ChargesOf(w.charges, reference, cents)|
            == |BookingsOf(w.holds, EverPaid(c, clock, commands), reference, cents)|
  {
    var w := Run(c, clock, commands);
    BooksAlwaysBalance(c, clock, commands);
    AcceptedCounts(w.charges, reference, cents);
    FaresCount(w.holds, EverPaid(c, clock, commands), reference, cents);
  }

  // ---- one accepted charge per paid booking -----------------------------------------------------

  /** The amounts entered under a reference. */
  function Under(entries: seq<Entry>, reference: string): seq<int> {
    if entries == [] then
      []
    else
      var last := entries[|entries| - 1];
      Under(entries[..|entries| - 1], reference) + if last.0 == reference then [last.1] else []
  }

  lemma {:induction false} UnderCounts(entries: seq<Entry>, reference: string, cents: int)
    ensures multiset(Under(entries, reference))[cents] == multiset(entries)[(reference, cents)]
  {
    if entries != [] {
      var before, last := entries[..|entries| - 1], entries[|entries| - 1];
      assert entries == before + [last];
      UnderCounts(before, reference, cents);
    }
  }

  lemma SameEntriesSameAmounts(a: seq<Entry>, b: seq<Entry>, reference: string)
    requires multiset(a) == multiset(b)
    ensures multiset(Under(a, reference)) == multiset(Under(b, reference))
  {
    forall cents ensures multiset(Under(a, reference))[cents] == multiset(Under(b, reference))[cents] {
      UnderCounts(a, reference, cents);
      UnderCounts(b, reference, cents);
    }
  }

  lemma UnderOfMore(entries: seq<Entry>, e: Entry, reference: string)
    ensures Under(entries + [e], reference) == Under(entries, reference) + if e.0 == reference then [e.1] else []
  {
    assert (entries + [e])[..|entries|] == entries;
  }

  lemma FaresOneMore(before: seq<Hold>, last: Hold, paid: set<string>, reference: string)
    ensures Under(FaresOf(before + [last], paid), reference)
            == Under(FaresOf(before, paid), reference)
               + if last.reference == reference && last.id in paid then [last.fare] else []
  {
    FaresOfMore(before, last, paid);
    UnderOfMore(FaresOf(before, paid), (last.reference, last.fare), reference);
    assert FaresOf(before, paid) + [] == FaresOf(before, paid);
  }

  lemma {:induction false} NoFareUnderAbsentReference(holds: seq<Hold>, paid: set<string>, reference: string)
    requires !Stored(holds, reference)
    ensures Under(FaresOf(holds, paid), reference) == []
  {
    if holds != [] {
      var before, last := holds[..|holds| - 1], holds[|holds| - 1];
      assert holds == before + [last] && last in holds;
      assert forall h :: h in before ==> h in holds;
      NoFareUnderAbsentReference(before, paid, reference);
      FaresOneMore(before, last, paid, reference);
    }
  }

  lemma {:induction false} FareUnderOwnReference(holds: seq<Hold>, paid: set<string>, at: nat)
    requires UniqueReferences(holds) && at < |holds|
    ensures Under(FaresOf(holds, paid), holds[at].reference) == if holds[at].id in paid then [holds[at].fare] else []
  {
    var before, last := holds[..|holds| - 1], holds[|holds| - 1];
    assert holds == before + [last];
    FaresOneMore(before, last, paid, holds[at].reference);
    if at == |holds| - 1 {
      assert UniqueReferences(before + [last]);
      assert !Stored(before, last.reference) by {
        assert forall i :: 0 <= i < |before| ==> holds[i].reference != holds[|holds| - 1].reference;
      }
      NoFareUnderAbsentReference(before, paid, last.reference);
    } else {
      FareUnderOwnReference(before, paid, at);
    }
  }

  /** With unique references: exactly one accepted charge, of the stored fare, under the
      reference of every booking ever paid, and none under any other reference. */
  lemma OneChargePerPaidBooking(c: Context, clock: int, commands: seq<Command>, reference: string)
    requires WellFormed(c) && NeverRepeats(c.names.reference)
    requires forall command :: command in commands ==> AvoidsGenerated(c, command)
    ensures var w := Run(c, clock, commands);
            var amounts := Under(Accepted(w.charges), reference);
            && (forall h :: h in w.holds && h.reference == reference ==>
                  amounts == if h.id in EverPaid(c, clock, commands) then [h.fare] else [])
            && (!Stored(w.holds, reference) ==> amounts == [])
  {
    var w, paid := Run(c, clock, commands), EverPaid(c, clock, commands);
    ReferencesStayUnique(c, clock, commands);
    BooksAlwaysBalance(c, clock, commands);
    SameEntriesSameAmounts(Accepted(w.charges), FaresOf(w.holds, paid), reference);
    if Stored(w.holds, reference) {
      forall h | h in w.holds && h.reference == reference
        ensures Under(Accepted(w.charges), reference) == if h.id in paid then [h.fare] else []
      {
        var at :| 0 <= at < |w.holds| && w.holds[at] == h;
        FareUnderOwnReference(w.holds, paid, at);
        SmallMultisets(Under(Accepted(w.charges), reference), Under(FaresOf(w.holds, paid), reference));
      }
    } else {
      NoFareUnderAbsentReference(w.holds, paid, reference);
      SmallMultisets(Under(Accepted(w.charges), reference), []);
    }
  }

  lemma SmallMultisets(a: seq<int>, b: seq<int>)
    requires multiset(a) == multiset(b) && |b| <= 1
    ensures a == b
  {
    assert |multiset(a)| == |a| && |multiset(b)| == |b|;
    if |a| == 1 {
      assert a[0] in multiset(a);
    }
  }

  // ---- totals --------------------------------------------------------------------------------------

  function TotalOf(entries: seq<Entry>): int {
    if entries == [] then 0 else TotalOf(entries[..|entries| - 1]) + entries[|entries| - 1].1
  }

  lemma {:induction false} TotalConcat(a: seq<Entry>, b: seq<Entry>)
    ensures TotalOf(a + b) == TotalOf(a) + TotalOf(b)
  {
    if b == [] {
      assert a + b == a;
    } else {
      assert (a + b)[..|a + b| - 1] == a + b[..|b| - 1];
      TotalConcat(a, b[..|b| - 1]);
    }
  }

  lemma TotalOfOne(e: Entry)
    ensures TotalOf([]) == 0 && TotalOf([e]) == e.1
  {
    assert [e][..0] == [];
  }

  lemma {:induction false} SameEntriesSameTotal(a: seq<Entry>, b: seq<Entry>)
    requires multiset(a) == multiset(b)
    ensures TotalOf(a) == TotalOf(b)
  {
    if a == [] {
      assert |multiset(b)| == |b|;
    } else {
      var before, last := a[..|a| - 1], a[|a| - 1];
      assert a == before + [last];
      assert last in multiset(b);
      var i :| 0 <= i < |b| && b[i] == last;
      WithoutOne(b, i);
      WithoutOne(a, |a| - 1);
      assert a[..|a| - 1] + a[|a|..] == before;
      SameEntriesSameTotal(before, b[..i] + b[i + 1..]);
      TotalWithoutOne(b, i);
    }
  }

  lemma WithoutOne(b: seq<Entry>, i: nat)
    requires i < |b|
    ensures multiset(b[..i] + b[i + 1..]) == multiset(b) - multiset{b[i]}
  {
    assert b == b[..i] + ([b[i]] + b[i + 1..]);
    assert multiset(b) == multiset(b[..i]) + multiset{b[i]} + multiset(b[i + 1..]);
  }

  lemma TotalSplit(head: seq<Entry>, e: Entry, tail: seq<Entry>)
    ensures TotalOf(head + [e] + tail) == TotalOf(head) + e.1 + TotalOf(tail)
  {
    TotalConcat(head + [e], tail);
    assert (head + [e])[..|head|] == head;
  }

  lemma Rejoin(b: seq<Entry>, i: nat)
    requires i < |b|
    ensures b == b[..i] + [b[i]] + b[i + 1..]
  {
  }

  lemma TotalWithoutOne(b: seq<Entry>, i: nat)
    requires i < |b|
    ensures TotalOf(b) == TotalOf(b[..i] + b[i + 1..]) + b[i].1
  {
    Rejoin(b, i);
    TotalSplit(b[..i], b[i], b[i + 1..]);
    TotalConcat(b[..i], b[i + 1..]);
  }

  /** Money taken equals the fares of the bookings ever paid. */
  lemma MoneyIsConserved(c: Context, clock: int, commands: seq<Command>)
    requires WellFormed(c)
    ensures var w := Run(c, clock, commands);
            TotalOf(Accepted(w.charges)) == TotalOf(FaresOf(w.holds, EverPaid(c, clock, commands)))
  {
    var w := Run(c, clock, commands);
    BooksAlwaysBalance(c, clock, commands);
    SameEntriesSameTotal(Accepted(w.charges), FaresOf(w.holds, EverPaid(c, clock, commands)));
  }
}
