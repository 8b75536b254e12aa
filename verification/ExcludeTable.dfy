/** The relational booking table: a primary key and the partial exclusion constraint over
    (trip, seat, leg) for rows that are HELD or CONFIRMED. A NULL seat never conflicts. */
module ExcludeTable {
  import opened Outcomes
  import opened Stations
  import opened Records
  import opened Bookings

  datatype Row = Row(id: string, trip: string, seat: Option<string>, leg: Leg, status: Status)

  /** The empty seat id is stored as NULL. */
  function RowOf(h: Hold): Row {
    Row(h.id, h.trip, if h.seat == "" then None else Some(h.seat), h.leg, h.status)
  }

  function RowsOf(holds: seq<Hold>): (rows: seq<Row>)
    ensures |rows| == |holds| && forall i :: 0 <= i < |holds| ==> rows[i] == RowOf(holds[i])
  {
    seq(|holds|, i requires 0 <= i < |holds| => RowOf(holds[i]))
  }

  predicate Excluded(a: Row, b: Row) {
    Active(a.status) && Active(b.status)
    && a.trip == b.trip && a.seat.Some? && a.seat == b.seat && a.leg.Overlaps(b.leg)
  }

  ghost predicate Satisfies(rows: seq<Row>) {
    forall i, j :: 0 <= i < j < |rows| ==> rows[i].id != rows[j].id && !Excluded(rows[i], rows[j])
  }

  /** The database accepts an insert iff the table with the new row satisfies its constraints. */
  ghost predicate Accepts(rows: seq<Row>, row: Row) {
    Satisfies(rows + [row])
  }

  lemma TableOfSafeStore(holds: seq<Hold>)
    requires Keyed(holds) && NoDoubleBooking(holds)
    ensures Satisfies(RowsOf(holds))
  {
    var rows := RowsOf(holds);
    forall i, j | 0 <= i < j < |rows| ensures rows[i].id != rows[j].id && !Excluded(rows[i], rows[j]) {
      assert !Conflict(holds[i], holds[j]);
    }
  }

  /** Exactly when the in-memory insert and the constrained table give the same verdict on a
      fresh record: always, unless something is in the way of a record that is inactive or
      seatless, which only the in-memory check refuses. */
  lemma InsertVerdictsAgree(holds: seq<Hold>, h: Hold)
    requires Keyed(holds) && NoDoubleBooking(holds) && Lookup(holds, h.id).None?
    ensures (AddHold(holds, h).Ok? <==> Accepts(RowsOf(holds), RowOf(h))) <==>
            ((exists e :: e in holds && Blocks(e, h)) ==> Active(h.status) && h.seat != "")
    ensures AddHold(holds, h).Ok? ==> Accepts(RowsOf(holds), RowOf(h))
  {
    TableOfSafeStore(holds);
    var rows, row := RowsOf(holds), RowOf(h);
    if AddHold(holds, h).Ok? || !(Active(h.status) && h.seat != "") {
      forall i, j | 0 <= i < j < |rows| + 1
        ensures (rows + [row])[i].id != (rows + [row])[j].id && !Excluded((rows + [row])[i], (rows + [row])[j])
      {
        if j == |rows| {
          assert holds[i] in holds && holds[i].id != h.id;
          assert AddHold(holds, h).Ok? ==> !Blocks(holds[i], h);
        }
      }
    } else {
      var e :| e in holds && Blocks(e, h);
      var i :| 0 <= i < |holds| && holds[i] == e;
      assert Excluded((rows + [row])[i], (rows + [row])[|rows|]);
    }
  }
}
