/** Concrete runs in which the system does not do what its documentation says. */
module Counterexamples {
  import opened Outcomes
  import opened Stations
  import opened Records
  import opened Bookings
  import opened Policy
  import opened Support
  import opened Identifiers
  import opened Transactions
  import opened Ledger
  import opened References
  import opened Replays
  import opened Receipts
  import opened Views

  /** A line of two stations, and a train that carries two reserved seats but calls nowhere. */
  const TRIP := Trip("T", [Station("A", "A", 0, 0.0), Station("B", "B", 1, 10.0)], [],
                     [Seat("R1", "R", Reserved, Second), Seat("R2", "R", Reserved, Second)])

  const CONTEXT := Context(map["T" := TRIP], Config(900, 4, 600, 3, 1.0, 2, 2.0, 1.0, 0.7),
                           PricedBy(FixedFare(100)), SEQUENTIAL)

  function Request(seat: string, reference: Option<string>): HoldRequest {
    HoldRequest("T", seat, Span(0, 1), "nic", "Ann", reference, 0.0)
  }

  /** A caller claims the very reference the generator will draw first. */
  const CLAIM := Request("R1", Some("SLR-000001"))

  const FIRST := Hold("id-1", "SLR-000001", "T", "R1", Span(0, 1), "nic", "Ann", Second, Held, 100, 900, 0)

  const LAPSED := FIRST.(status := Expired)

  lemma ContextIsWellFormed()
    ensures WellFormed(CONTEXT) && ValidLeg(TRIP, Span(0, 1))
  {
    SequentialNeverRepeats();
    assert TRIP.stations[0] in TRIP.stations && TRIP.stations[0].seq_no == 0;
    assert TRIP.stations[1] in TRIP.stations && TRIP.stations[1].seq_no == 1;
  }

  lemma FirstNames()
    ensures SequentialReference(0) == "SLR-000001"
    ensures SequentialId(0) == "id-1" && SequentialId(1) == "id-2"
  {
    assert Decimal(1) == "1" && Decimal(2) == "2";
    assert "0" + "1" == "01" && "0" + "01" == "001" && "0" + "001" == "0001";
    assert "0" + "0001" == "00001" && "0" + "00001" == "000001";
    assert Padded("00001", 6) == Padded("000001", 6) == "000001";
    assert Padded("001", 6) == Padded("0001", 6) == Padded("00001", 6);
    assert Padded("1", 6) == Padded("01", 6) == Padded("001", 6);
  }

  lemma FirstHold()
    ensures HoldSeat(CONTEXT, Fresh(0), CLAIM) == (World([FIRST], 0, 1, 0, []), Ok(FIRST))
  {
    ContextIsWellFormed();
    FirstNames();
    assert HoldRefusal(CONTEXT, [], 0, CLAIM).None?;
    assert ExpireDue([], 0) == [] && [] + [FIRST] == [FIRST];
    assert HoldDraft(CONTEXT, Fresh(0), CLAIM, Second, 100) == FIRST;
  }

  /** A second hold, on the other seat, before or after the first has lapsed. */
  lemma SecondHold(now: int, due: Hold) returns (g: Hold)
    requires (now == 0 && due == FIRST) || (now == 900 && due == LAPSED)
    ensures g.id == "id-2" && g.reference == "SLR-000001" && g.seat == "R2"
    ensures HoldSeat(CONTEXT, World([FIRST], now, 1, 0, []), Request("R2", None))
            == (World([due, g], now, 2, 1, []), Ok(g))
  {
    ContextIsWellFormed();
    assert ExpireDue([FIRST], now) == [due];
    g := SecondIsPlaced(now, due);
    SecondHoldPasses(now, due);
  }

  lemma SecondIsPlaced(now: int, due: Hold) returns (g: Hold)
    requires due == FIRST || due == LAPSED
    ensures g.id == "id-2" && g.reference == "SLR-000001" && g.seat == "R2"
    ensures PlaceHold(CONTEXT, World([FIRST], now, 1, 0, []), [due], Request("R2", None), Second, Ok(100))
            == (World([due, g], now, 2, 1, []), Ok(g))
  {
    FirstNames();
    g := HoldDraft(CONTEXT, World([FIRST], now, 1, 0, []), Request("R2", None), Second, 100);
    assert "id-1"[3] != "id-2"[3];
    assert [due] + [g] == [due, g];
  }

  lemma SecondHoldPasses(now: int, due: Hold)
    requires (now == 0 && due == FIRST) || (now == 900 && due == LAPSED)
    ensures HoldRefusal(CONTEXT, [due], now, Request("R2", None)).None?
    ensures SeatOn(TRIP, "R2") == Some(TRIP.seats[1])
  {
    ContextIsWellFormed();
    assert TRIP.seats[1..][0] == TRIP.seats[1];
    SecondPassesGate(now, due);
  }

  lemma SecondPassesGate(now: int, due: Hold)
    requires (now == 0 && due == FIRST) || (now == 900 && due == LAPSED)
    ensures GateRefusal(CONTEXT.config, [due], "T", "nic", now, 0.0).None?
  {
    var active, recent := PassengerActive("T", "nic"), PassengerRecent("T", "nic", now - 600);
    assert |Select([due], active)| <= 1 && |Select([due], recent)| <= 1;
  }

  lemma ClashIsReached() returns (g: Hold)
    ensures g.id == "id-2" && g.reference == "SLR-000001"
    ensures Run(CONTEXT, 0, [HoldCommand(CLAIM), HoldCommand(Request("R2", None))]) == World([FIRST, g], 0, 2, 1, [])
  {
    FirstHold();
    g := SecondHold(0, FIRST);
    RunOneMore(CONTEXT, 0, [], HoldCommand(CLAIM));
    RunOneMore(CONTEXT, 0, [HoldCommand(CLAIM)], HoldCommand(Request("R2", None)));
    assert [HoldCommand(CLAIM)] + [HoldCommand(Request("R2", None))]
        == [HoldCommand(CLAIM), HoldCommand(Request("R2", None))];
    assert [] + [HoldCommand(CLAIM)] == [HoldCommand(CLAIM)];
  }

  /** References are not unique: a caller who supplies the reference the sequential generator is
      about to draw leaves two bookings under one reference. */
  lemma ReferencesCanClash()
    ensures WellFormed(CONTEXT)
    ensures var w := Run(CONTEXT, 0, [HoldCommand(CLAIM), HoldCommand(Request("R2", None))]);
            |w.holds| == 2 && w.holds[0].id != w.holds[1].id
            && w.holds[0].reference == w.holds[1].reference && !UniqueReferences(w.holds)
  {
    ContextIsWellFormed();
    var g := ClashIsReached();
    assert "id-1"[3] != "id-2"[3];
    assert [FIRST, g][0].reference == [FIRST, g][1].reference;
  }

  lemma OverdueIsReached()
    ensures Run(CONTEXT, 0, [HoldCommand(CLAIM), TickCommand(900)]) == World([FIRST], 900, 1, 0, [])
    ensures Run(CONTEXT, 0, [HoldCommand(CLAIM)]) == World([FIRST], 0, 1, 0, [])
  {
    FirstHold();
    RunOneMore(CONTEXT, 0, [], HoldCommand(CLAIM));
    RunOneMore(CONTEXT, 0, [HoldCommand(CLAIM)], TickCommand(900));
    assert [HoldCommand(CLAIM)] + [TickCommand(900)] == [HoldCommand(CLAIM), TickCommand(900)];
    assert [] + [HoldCommand(CLAIM)] == [HoldCommand(CLAIM)];
  }

  /** Verification is not read-only: with one overdue hold it commits the hold's expiry. */
  lemma VerifyingCommitsExpiry()
    ensures var w := Run(CONTEXT, 0, [HoldCommand(CLAIM), TickCommand(900)]);
            var (w', outcome) := VerifyTicket(CONTEXT, w, "SLR-000001");
            && w.holds == [FIRST] && w'.holds == [LAPSED] && w' != w
            && outcome == Ok((VoidExpired, LAPSED))
  {
    OverdueIsReached();
    assert ExpireDue([FIRST], 900) == [LAPSED];
    assert ByReference([LAPSED], "SLR-000001") == Some(LAPSED) by {
      assert [LAPSED][..0] == [];
    }
  }

  /** Placing a hold on one seat retires an overdue hold on another. */
  lemma HoldingRetiresElsewhere()
    ensures var w := Run(CONTEXT, 0, [HoldCommand(CLAIM), TickCommand(900)]);
            var (w', outcome) := HoldSeat(CONTEXT, w, Request("R2", None));
            && outcome.Ok? && outcome.value.seat == "R2"
            && w.holds == [FIRST] && FIRST.seat == "R1"
            && |w'.holds| == 2 && w'.holds[0] == LAPSED
  {
    OverdueIsReached();
    var g := SecondHold(900, LAPSED);
  }

  /** A payment can be taken and committed although no receipt can be printed, when the train
      does not call at the stations of a leg that was accepted for sale. */
  lemma PaidWithoutReceipt()
    ensures var w := Run(CONTEXT, 0, [HoldCommand(CLAIM)]);
            var (w', outcome) := ConfirmBooking(CONTEXT, w, "id-1", true);
            && outcome.Ok? && w'.holds == [outcome.value] && outcome.value.status == Confirmed
            && Accepted(w'.charges) == [("SLR-000001", 100)]
            && BuildReceipt(outcome.value, TRIP, SeatOn(TRIP, "R1"), None, []) == Err(InvalidLeg)
  {
    OverdueIsReached();
    FirstIsPaid();
    AcceptedOfMore([], Charge("SLR-000001", 100, true));
    assert [] + [Charge("SLR-000001", 100, true)] == [Charge("SLR-000001", 100, true)];
    assert StopAt(TRIP.stops, 0) == None;
  }

  lemma FirstIsPaid()
    ensures var paid := FIRST.(status := Confirmed);
            ConfirmBooking(CONTEXT, World([FIRST], 0, 1, 0, []), "id-1", true)
            == (World([paid], 0, 1, 0, [Charge("SLR-000001", 100, true)]), Ok(paid))
  {
    assert ExpireDue([FIRST], 0) == [FIRST];
    assert Lookup([FIRST], "id-1") == Some(0);
    assert [FIRST][0 := FIRST.(status := Confirmed)] == [FIRST.(status := Confirmed)];
    assert [] + [Charge("SLR-000001", 100, true)] == [Charge("SLR-000001", 100, true)];
  }
}
