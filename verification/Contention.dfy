/** Any serial order of inserts racing for one seat, into the in-memory store and into the
    constrained table. */
module Contention {
  import opened Outcomes
  import opened Stations
  import opened Records
  import opened Bookings
  import opened ExcludeTable

  function InsertAll(holds: seq<Hold>, attempts: seq<Hold>): seq<Hold> {
    if attempts == [] then
      holds
    else
      var before := InsertAll(holds, attempts[..|attempts| - 1]);
      var inserted := AddHold(before, attempts[|attempts| - 1]);
      if inserted.Ok? then inserted.value else before
  }

  predicate TakenBy(winners: seq<Hold>, h: Hold) {
    exists e :: e in winners && e.leg.Overlaps(h.leg)
  }

  /** First come, first served. */
  function Winners(attempts: seq<Hold>): seq<Hold> {
    if attempts == [] then
      []
    else
      var before, last := Winners(attempts[..|attempts| - 1]), attempts[|attempts| - 1];
      if TakenBy(before, last) then before else before + [last]
  }

  /** Active bookings under distinct fresh ids for one seat that nobody active occupies. */
  ghost predicate Racing(holds: seq<Hold>, trip: string, seat: string, attempts: seq<Hold>) {
    && (forall h :: h in holds ==> !Matches(SeatActive(trip, seat), h))
    && (forall h :: h in attempts ==> Active(h.status) && h.trip == trip && h.seat == seat)
    && (forall h, e :: h in holds && e in attempts ==> h.id != e.id)
    && (forall i, j :: 0 <= i < j < |attempts| ==> attempts[i].id != attempts[j].id)
  }

  lemma {:induction false} WinnersAreAttempts(attempts: seq<Hold>)
    ensures forall h :: h in Winners(attempts) ==> h in attempts
  {
    if attempts != [] {
      WinnersAreAttempts(attempts[..|attempts| - 1]);
      assert attempts == attempts[..|attempts| - 1] + [attempts[|attempts| - 1]];
    }
  }

  /** Against a table whose bookings on this seat are the given winners, the insert's verdict
      depends on the winners alone. */
  lemma OneMoreAttempt(holds: seq<Hold>, winners: seq<Hold>, last: Hold)
    requires Active(last.status)
    requires forall h :: h in holds ==> !Matches(SeatActive(last.trip, last.seat), h) && h.id != last.id
    requires forall h :: h in winners ==> Matches(SeatActive(last.trip, last.seat), h) && h.id != last.id
    ensures AddHold(holds + winners, last)
            == if TakenBy(winners, last) then Err(Overlap) else Ok(holds + winners + [last])
  {
    var table := holds + winners;
    if TakenBy(winners, last) {
      var e :| e in winners && e.leg.Overlaps(last.leg);
      assert e in table && Blocks(e, last);
    } else {
      forall e | e in table ensures !Blocks(e, last) {
        assert e in holds || e in winners;
      }
      forall i | 0 <= i < |table| ensures table[i].id != last.id {
        assert table[i] in holds || table[i] in winners;
      }
    }
  }

  lemma RacingShrinks(holds: seq<Hold>, trip: string, seat: string, attempts: seq<Hold>)
    requires Racing(holds, trip, seat, attempts) && attempts != []
    ensures Racing(holds, trip, seat, attempts[..|attempts| - 1])
    ensures forall h :: h in attempts[..|attempts| - 1] ==> h.id != attempts[|attempts| - 1].id
  {
    var before, last := attempts[..|attempts| - 1], attempts[|attempts| - 1];
    forall h | h in before ensures h in attempts && h.id != last.id {
      var i :| 0 <= i < |before| && before[i] == h;
      assert attempts[i] == h;
    }
  }

  /** The table ends up with exactly the winners appended. */
  lemma {:induction false} RaceHasWinners(holds: seq<Hold>, trip: string, seat: string, attempts: seq<Hold>)
    requires Racing(holds, trip, seat, attempts)
    ensures InsertAll(holds, attempts) == holds + Winners(attempts)
  {
    if attempts != [] {
      var before, last := attempts[..|attempts| - 1], attempts[|attempts| - 1];
      RacingShrinks(holds, trip, seat, attempts);
      RaceHasWinners(holds, trip, seat, before);
      WinnersAreAttempts(before);
      assert last in attempts;
      OneMoreAttempt(holds, Winners(before), last);
      assert holds + Winners(before) + [last] == holds + (Winners(before) + [last]);
    }
  }

  /** The winners never overlap, and every loser overlaps a winner: a maximal set. */
  lemma {:induction false} WinnersAreMaximal(attempts: seq<Hold>)
    ensures forall i, j :: 0 <= i < j < |Winners(attempts)| ==>
              !Winners(attempts)[i].leg.Overlaps(Winners(attempts)[j].leg)
    ensures forall h :: h in attempts ==> h in Winners(attempts) || TakenBy(Winners(attempts), h)
  {
    if attempts != [] {
      var prefix, last := attempts[..|attempts| - 1], attempts[|attempts| - 1];
      var before, winners := Winners(prefix), Winners(attempts);
      assert attempts == prefix + [last];
      WinnersAreMaximal(prefix);
      assert forall e :: e in before ==> e in winners;
      forall h | h in attempts ensures h in winners || TakenBy(winners, h) {
        if h in prefix && TakenBy(before, h) {
          var e :| e in before && e.leg.Overlaps(h.leg);
          assert e in winners;
        }
      }
      if !TakenBy(before, last) {
        forall i | 0 <= i < |before| ensures !before[i].leg.Overlaps(last.leg) {
          assert before[i] in before;
        }
      }
    }
  }

  // ---- the same race in the database -----------------------------------------------------------

  /** Each row in turn, kept when the table with it still satisfies its constraints. */
  ghost function CommitAll(rows: seq<Row>, attempts: seq<Hold>): seq<Row> {
    if attempts == [] then
      rows
    else
      var before, row := CommitAll(rows, attempts[..|attempts| - 1]), RowOf(attempts[|attempts| - 1]);
      if Accepts(before, row) then before + [row] else before
  }

  /** What the two stores have in common when one more attempt arrives. */
  lemma WinnersStaySafe(holds: seq<Hold>, trip: string, seat: string, attempts: seq<Hold>)
    requires Keyed(holds) && NoDoubleBooking(holds) && Racing(holds, trip, seat, attempts)
    ensures Keyed(holds + Winners(attempts)) && NoDoubleBooking(holds + Winners(attempts))
    decreases |attempts|
  {
    if attempts == [] {
      assert holds + [] == holds;
    } else {
      var before, last := attempts[..|attempts| - 1], attempts[|attempts| - 1];
      RacingShrinks(holds, trip, seat, attempts);
      WinnersStaySafe(holds, trip, seat, before);
      if !TakenBy(Winners(before), last) {
        LateAttemptIsFresh(holds, trip, seat, attempts);
        AcceptedInsertIsSafe(holds + Winners(before), last);
        assert holds + Winners(before) + [last] == holds + (Winners(before) + [last]);
      }
    }
  }

  lemma LateAttemptIsFresh(holds: seq<Hold>, trip: string, seat: string, attempts: seq<Hold>)
    requires Racing(holds, trip, seat, attempts) && attempts != []
    ensures var before, last := Winners(attempts[..|attempts| - 1]), attempts[|attempts| - 1];
            && Lookup(holds + before, last.id).None?
            && AddHold(holds + before, last)
               == if TakenBy(before, last) then Err(Overlap) else Ok(holds + before + [last])
  {
    var prefix, last := attempts[..|attempts| - 1], attempts[|attempts| - 1];
    RacingShrinks(holds, trip, seat, attempts);
    WinnersAreAttempts(prefix);
    assert last in attempts;
    assert forall h :: h in prefix ==> h in attempts;
    OneMoreAttempt(holds, Winners(prefix), last);
    var table := holds + Winners(prefix);
    forall i | 0 <= i < |table| ensures table[i].id != last.id {
      assert table[i] in holds || table[i] in Winners(prefix);
    }
  }

  /** The constrained table ends up with the rows of exactly the same winners. */
  lemma {:induction false} RaceHasSameWinners(holds: seq<Hold>, trip: string, seat: string, attempts: seq<Hold>)
    requires Keyed(holds) && NoDoubleBooking(holds) && Racing(holds, trip, seat, attempts) && seat != ""
    ensures CommitAll(RowsOf(holds), attempts) == RowsOf(holds + Winners(attempts))
  {
    if attempts == [] {
      assert holds + [] == holds;
    } else {
      var before, last := attempts[..|attempts| - 1], attempts[|attempts| - 1];
      var table := holds + Winners(before);
      RacingShrinks(holds, trip, seat, attempts);
      RaceHasSameWinners(holds, trip, seat, before);
      WinnersStaySafe(holds, trip, seat, before);
      LateAttemptIsFresh(holds, trip, seat, attempts);
      InsertVerdictsAgree(table, last);
      assert last in attempts;
      RowsOfBoth(table, [last]);
      assert RowsOf([last]) == [RowOf(last)];
      assert table + [last] == holds + (Winners(before) + [last]);
    }
  }

  lemma RowsOfBoth(a: seq<Hold>, b: seq<Hold>)
    ensures RowsOf(a + b) == RowsOf(a) + RowsOf(b)
  {
  }

  // ---- who wins ----------------------------------------------------------------------------------

  lemma {:induction false} FirstOverlapperWins(attempts: seq<Hold>)
    requires attempts != []
    requires forall i, j :: 0 <= i < j < |attempts| ==> attempts[i].leg.Overlaps(attempts[j].leg)
    ensures Winners(attempts) == [attempts[0]]
  {
    var before, last := attempts[..|attempts| - 1], attempts[|attempts| - 1];
    if before == [] {
      assert Winners(before) == [];
    } else {
      FirstOverlapperWins(before);
      assert attempts[0] in Winners(before) && attempts[0].leg.Overlaps(last.leg);
    }
  }

  lemma {:induction false} EveryDisjointWins(attempts: seq<Hold>)
    requires forall i, j :: 0 <= i < j < |attempts| ==> !attempts[i].leg.Overlaps(attempts[j].leg)
    ensures Winners(attempts) == attempts
  {
    if attempts != [] {
      var before, last := attempts[..|attempts| - 1], attempts[|attempts| - 1];
      assert attempts == before + [last];
      EveryDisjointWins(before);
      forall e | e in before ensures !e.leg.Overlaps(last.leg) {
        var i :| 0 <= i < |before| && before[i] == e;
        assert !attempts[i].leg.Overlaps(attempts[|attempts| - 1].leg);
      }
    }
  }

  /** Attempts that all overlap one another, in whatever order they commit: the first is stored
      and everyone else is refused, in memory and in the database alike. */
  lemma OverlappingRaceHasOneWinner(holds: seq<Hold>, trip: string, seat: string, attempts: seq<Hold>)
    requires Keyed(holds) && NoDoubleBooking(holds) && Racing(holds, trip, seat, attempts) && seat != ""
    requires attempts != []
    requires forall i, j :: 0 <= i < j < |attempts| ==> attempts[i].leg.Overlaps(attempts[j].leg)
    ensures InsertAll(holds, attempts) == holds + [attempts[0]]
    ensures CommitAll(RowsOf(holds), attempts) == RowsOf(holds) + [RowOf(attempts[0])]
  {
    FirstOverlapperWins(attempts);
    RowsOfBoth(holds, [attempts[0]]);
    RaceHasWinners(holds, trip, seat, attempts);
    RaceHasSameWinners(holds, trip, seat, attempts);
  }

  /** Attempts that never overlap, adjacent resale included: every one of them is stored. */
  lemma DisjointRaceHasNoLosers(holds: seq<Hold>, trip: string, seat: string, attempts: seq<Hold>)
    requires Keyed(holds) && NoDoubleBooking(holds) && Racing(holds, trip, seat, attempts) && seat != ""
    requires forall i, j :: 0 <= i < j < |attempts| ==> !attempts[i].leg.Overlaps(attempts[j].leg)
    ensures InsertAll(holds, attempts) == holds + attempts
    ensures CommitAll(RowsOf(holds), attempts) == RowsOf(holds) + RowsOf(attempts)
  {
    EveryDisjointWins(attempts);
    RaceHasWinners(holds, trip, seat, attempts);
    RaceHasSameWinners(holds, trip, seat, attempts);
    RowsOfBoth(holds, attempts);
  }
}
