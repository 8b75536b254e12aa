/** The in-memory repository and its unit of work: one object holding the tables and, inside a
    transaction, the snapshot that a rollback restores. */
module MemoryStore {
  import opened Outcomes
  import opened Stations
  import opened Records
  import B = Bookings

  /** Trips by id; of several under one id the last is kept. */
  function Filed(trips: seq<Trip>): (filed: map<string, Trip>)
    ensures forall t :: t in trips ==> t.id in filed
    ensures forall id :: id in filed ==> filed[id] in trips && filed[id].id == id
  {
    if trips == [] then
      map[]
    else
      var before, last := trips[..|trips| - 1], trips[|trips| - 1];
      assert trips == before + [last];
      Filed(before)[last.id := last]
  }

  lemma {:induction false} LastTripIsKept(trips: seq<Trip>, i: nat)
    requires i < |trips| && forall k :: i < k < |trips| ==> trips[k].id != trips[i].id
    ensures trips[i] in trips && Filed(trips)[trips[i].id] == trips[i]
  {
    if i < |trips| - 1 {
      LastTripIsKept(trips[..|trips| - 1], i);
    }
  }

  class Store {
    var holds: seq<Hold>
    var trips: map<string, Trip>
    var snapshot: Option<(seq<Hold>, map<string, Trip>)>

    constructor (trips: seq<Trip>)
      ensures holds == [] && snapshot == None && this.trips == Filed(trips)
    {
      holds, snapshot := [], None;
      this.trips := map[];
      new;
      for i := 0 to |trips|
        invariant holds == [] && snapshot == None && this.trips == Filed(trips[..i])
      {
        assert trips[..i + 1][..i] == trips[..i];
        this.trips := this.trips[trips[i].id := trips[i]];
      }
      assert trips[..|trips|] == trips;
    }

    /** Refused iff an active record under another id overlaps on the same trip and seat. */
    method AddHold(hold: Hold) returns (outcome: Outcome<()>)
      modifies `holds
      ensures outcome.Ok? <==> !exists e :: e in old(holds) && B.Blocks(e, hold)
      ensures outcome.Ok? ==> B.AddHold(old(holds), hold) == Ok(holds)
      ensures outcome.Err? ==> holds == old(holds) && B.AddHold(holds, hold) == Err(outcome.error)
    {
      var active := B.Select(holds, B.SeatActive(hold.trip, hold.seat));
      for i := 0 to |active|
        invariant forall j :: 0 <= j < i ==> !B.Blocks(active[j], hold)
        invariant holds == old(holds)
      {
        var existing := active[i];
        if existing.id == hold.id {
          continue;
        }
        if existing.leg.Overlaps(hold.leg) {
          assert existing in active && B.Blocks(existing, hold);
          return Err(Overlap);
        }
      }
      forall e | e in holds ensures !B.Blocks(e, hold) {
        if e in active {
          var k :| 0 <= k < |active| && active[k] == e;
        }
      }
      holds := B.Put(holds, hold);
      return Ok(());
    }

    method Get(id: string) returns (found: Option<Hold>)
      ensures found.None? <==> forall h :: h in holds ==> h.id != id
      ensures found.Some? ==>
                found.value.id == id && B.Lookup(holds, id).Some? && found.value == holds[B.Lookup(holds, id).value]
    {
      var at := B.Lookup(holds, id);
      if at.None? {
        return None;
      }
      return Some(holds[at.value]);
    }

    /** The first record issued under the reference. */
    method ByReference(reference: string) returns (found: Option<Hold>)
      ensures found == B.ByReference(holds, reference)
    {
      for i := 0 to |holds|
        invariant B.ByReference(holds[..i], reference).None?
      {
        assert holds[..i + 1][..i] == holds[..i];
        if holds[i].reference == reference {
          B.StaysFirst(holds, i + 1, reference);
          return Some(holds[i]);
        }
      }
      assert holds[..|holds|] == holds;
      return None;
    }

    /** Sets a status without any check. */
    method SetStatus(id: string, status: Status) returns (updated: Option<Hold>)
      modifies `holds
      ensures updated.None? ==> holds == old(holds) && B.Lookup(holds, id).None?
      ensures updated.Some? ==>
                && B.Lookup(old(holds), id).Some?
                && holds == B.WithStatus(old(holds), B.Lookup(old(holds), id).value, status)
                && updated.value == holds[B.Lookup(old(holds), id).value]
    {
      var at := B.Lookup(holds, id);
      if at.None? {
        return None;
      }
      var record := holds[at.value].(status := status);
      holds := holds[at.value := record];
      return Some(record);
    }

    /** Expires every overdue held record, and returns the records it expired. */
    method ExpireDue(now: int) returns (expired: seq<Hold>)
      modifies `holds
      ensures holds == B.ExpireDue(old(holds), now)
      ensures expired == B.DueAt(old(holds), now)
    {
      expired := [];
      var items := holds;
      for i := 0 to |items|
        invariant |holds| == |items|
        invariant forall j :: 0 <= j < i ==> holds[j] == B.Lapsed(items[j], now)
        invariant forall j :: i <= j < |items| ==> holds[j] == items[j]
        invariant expired == B.DueAt(items[..i], now)
      {
        assert items[..i + 1][..i] == items[..i];
        if items[i].status == Held && items[i].heldUntil <= now {
          var updated := items[i].(status := Expired);
          holds := holds[i := updated];
          expired := expired + [updated];
        }
      }
      assert items[..|items|] == items;
    }

    method Enter()
      modifies `snapshot
      ensures snapshot == Some((holds, trips))
    {
      snapshot := Some((holds, trips));
    }

    method Commit()
      modifies `snapshot
      ensures snapshot == None
    {
      snapshot := None;
    }

    method Rollback()
      modifies this
      ensures snapshot == None
      ensures old(snapshot).Some? ==> (holds, trips) == old(snapshot).value
      ensures old(snapshot).None? ==> holds == old(holds) && trips == old(trips)
    {
      if snapshot.Some? {
        holds, trips := snapshot.value.0, snapshot.value.1;
        snapshot := None;
      }
    }

    /** Leaving the block: whatever was not committed is undone. */
    method Exit()
      modifies this
      ensures snapshot == None
      ensures old(snapshot).Some? ==> (holds, trips) == old(snapshot).value
      ensures old(snapshot).None? ==> holds == old(holds) && trips == old(trips)
    {
      if snapshot.Some? {
        Rollback();
      }
    }
  }
}
