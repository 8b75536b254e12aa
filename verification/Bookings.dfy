/** The booking table as a value: insertion-ordered records, one per booking id. */
module Bookings {
  import opened Outcomes
  import opened Stations
  import opened Records

  /** No two records share a booking id. */
  ghost predicate Keyed(holds: seq<Hold>) {
    forall i, j :: 0 <= i < j < |holds| ==> holds[i].id != holds[j].id
  }

  // ---- queries -----------------------------------------------------------------------------

  datatype Query =
    | SeatActive(trip: string, seat: string)
    | PassengerActive(trip: string, passenger: string)
    | PassengerRecent(trip: string, passenger: string, after: int)
    | PassengerWindow(trip: string, passenger: string, after: int, upTo: int)
    | TripActive(trip: string)
    | StandingIn(trip: string, travelClass: TravelClass)

  predicate Matches(q: Query, h: Hold) {
    h.trip == q.trip &&
    match q
    case SeatActive(_, seat) => h.seat == seat && Active(h.status)
    case PassengerActive(_, passenger) => h.passenger == passenger && Active(h.status)
    case PassengerRecent(_, passenger, after) => h.passenger == passenger && Active(h.status) && after < h.createdAt
    case PassengerWindow(_, passenger, after, upTo) =>
      h.passenger == passenger && Active(h.status) && after < h.createdAt <= upTo
    case TripActive(_) => Active(h.status)
    case StandingIn(_, travelClass) => h.status == Standing && h.travelClass == travelClass
  }

  /** The matching records, in insertion order. */
  function Select(holds: seq<Hold>, q: Query): (found: seq<Hold>)
    ensures forall h :: h in found <==> h in holds && Matches(q, h)
    ensures |found| <= |holds|
  {
    if holds == [] then
      []
    else
      var last := holds[|holds| - 1];
      assert holds == holds[..|holds| - 1] + [last];
      var before := Select(holds[..|holds| - 1], q);
      if Matches(q, last) then before + [last] else before
  }

  lemma SelectOfMore(holds: seq<Hold>, h: Hold, q: Query)
    ensures Select(holds + [h], q) == Select(holds, q) + if Matches(q, h) then [h] else []
  {
    assert (holds + [h])[..|holds|] == holds;
  }

  lemma Regroup(a: seq<Hold>, b: seq<Hold>, c: seq<Hold>)
    ensures (a + b) + c == a + (b + c)
  {
  }

  /** Selecting keeps the table's order: from a table in two parts, what the first part has comes
      first; from one record, that record or nothing. */
  lemma {:induction false} SelectKeepsOrder(a: seq<Hold>, b: seq<Hold>, q: Query)
    ensures Select(a + b, q) == Select(a, q) + Select(b, q)
  {
    if b == [] {
      assert a + b == a;
    } else {
      var before, last := b[..|b| - 1], b[|b| - 1];
      Regroup(a, before, [last]);
      assert b == before + [last];
      SelectKeepsOrder(a, before, q);
      SelectOfMore(a + before, last, q);
      SelectOfMore(before, last, q);
      Regroup(Select(a, q), Select(before, q), if Matches(q, last) then [last] else []);
    }
  }

  /** Positions that hold. */
  ghost function TrueAt(flags: seq<bool>): set<nat> {
    set i: nat | i < |flags| && flags[i]
  }

  lemma OneMoreFlag(flags: seq<bool>, flag: bool)
    ensures |TrueAt(flags + [flag])| == |TrueAt(flags)| + if flag then 1 else 0
  {
    if flag {
      assert TrueAt(flags + [flag]) == TrueAt(flags) + {|flags|};
    } else {
      assert TrueAt(flags + [flag]) == TrueAt(flags);
    }
  }

  ghost function Flags(holds: seq<Hold>, q: Query): (flags: seq<bool>)
    ensures |flags| == |holds| && forall i :: 0 <= i < |holds| ==> flags[i] == Matches(q, holds[i])
  {
    seq(|holds|, i requires 0 <= i < |holds| => Matches(q, holds[i]))
  }

  ghost function MatchesAt(holds: seq<Hold>, q: Query): (at: set<nat>)
    ensures forall i: nat :: i in at <==> i < |holds| && Matches(q, holds[i])
  {
    TrueAt(Flags(holds, q))
  }

  lemma OneMoreMatch(holds: seq<Hold>, h: Hold, q: Query)
    ensures |MatchesAt(holds + [h], q)| == |MatchesAt(holds, q)| + if Matches(q, h) then 1 else 0
  {
    var matched := Matches(q, h);
    assert Flags(holds + [h], q) == Flags(holds, q) + [matched];
    OneMoreFlag(Flags(holds, q), matched);
  }

  lemma {:induction false} SelectCounts(holds: seq<Hold>, q: Query)
    ensures |Select(holds, q)| == |MatchesAt(holds, q)|
  {
    if holds == [] {
      assert MatchesAt(holds, q) == {};
    } else {
      var before, last := holds[..|holds| - 1], holds[|holds| - 1];
      assert holds == before + [last];
      SelectCounts(before, q);
      SelectedOfMore(before, last, q);
      OneMoreMatch(before, last, q);
    }
  }

  // ---- who holds what, told by positions in the table -------------------------------------------

  /** The passenger's bookings on the trip that are held or confirmed. */
  ghost function BookedBy(holds: seq<Hold>, trip: string, passenger: string): set<nat> {
    set i: nat | i < |holds| && holds[i].trip == trip && holds[i].passenger == passenger
                 && (holds[i].status == Held || holds[i].status == Confirmed)
  }

  /** Those of them made after an instant. */
  ghost function BookedAfter(holds: seq<Hold>, trip: string, passenger: string, after: int): set<nat> {
    set i: nat | i < |holds| && holds[i].trip == trip && holds[i].passenger == passenger
                 && (holds[i].status == Held || holds[i].status == Confirmed) && after < holds[i].createdAt
  }

  /** Those of them made within a window of time. */
  ghost function BookedWithin(holds: seq<Hold>, trip: string, passenger: string, after: int, upTo: int): set<nat> {
    set i: nat | i < |holds| && holds[i].trip == trip && holds[i].passenger == passenger
                 && (holds[i].status == Held || holds[i].status == Confirmed) && after < holds[i].createdAt <= upTo
  }

  /** The standing tickets of the trip and class. */
  ghost function StandingOn(holds: seq<Hold>, trip: string, travelClass: TravelClass): set<nat> {
    set i: nat | i < |holds| && holds[i].trip == trip && holds[i].travelClass == travelClass
                 && holds[i].status == Standing
  }

  lemma BookedByIsSelected(holds: seq<Hold>, trip: string, passenger: string)
    ensures |BookedBy(holds, trip, passenger)| == |Select(holds, PassengerActive(trip, passenger))|
  {
    SelectCounts(holds, PassengerActive(trip, passenger));
    assert BookedBy(holds, trip, passenger) == MatchesAt(holds, PassengerActive(trip, passenger));
  }

  lemma BookedAfterIsSelected(holds: seq<Hold>, trip: string, passenger: string, after: int)
    ensures |BookedAfter(holds, trip, passenger, after)| == |Select(holds, PassengerRecent(trip, passenger, after))|
  {
    SelectCounts(holds, PassengerRecent(trip, passenger, after));
    assert BookedAfter(holds, trip, passenger, after) == MatchesAt(holds, PassengerRecent(trip, passenger, after));
  }

  lemma BookedWithinIsSelected(holds: seq<Hold>, trip: string, passenger: string, after: int, upTo: int)
    ensures |BookedWithin(holds, trip, passenger, after, upTo)|
            == |Select(holds, PassengerWindow(trip, passenger, after, upTo))|
  {
    SelectCounts(holds, PassengerWindow(trip, passenger, after, upTo));
    assert BookedWithin(holds, trip, passenger, after, upTo)
        == MatchesAt(holds, PassengerWindow(trip, passenger, after, upTo));
  }

  lemma StandingIsSelected(holds: seq<Hold>, trip: string, travelClass: TravelClass)
    ensures |StandingOn(holds, trip, travelClass)| == |Select(holds, StandingIn(trip, travelClass))|
  {
    SelectCounts(holds, StandingIn(trip, travelClass));
    assert StandingOn(holds, trip, travelClass) == MatchesAt(holds, StandingIn(trip, travelClass));
  }

  lemma SelectedOfMore(holds: seq<Hold>, h: Hold, q: Query)
    ensures |Select(holds + [h], q)| == |Select(holds, q)| + if Matches(q, h) then 1 else 0
  {
    SelectOfMore(holds, h, q);
  }

  /** Record by record, if the second table matches no more than the first, it selects no more. */
  lemma {:induction false} SelectShrinks(a: seq<Hold>, b: seq<Hold>, q: Query)
    requires |a| == |b| && forall i :: 0 <= i < |a| ==> (Matches(q, b[i]) ==> Matches(q, a[i]))
    ensures |Select(b, q)| <= |Select(a, q)|
  {
    if a != [] {
      SelectShrinks(a[..|a| - 1], b[..|b| - 1], q);
    }
  }

  /** A query that implies another selects no more. */
  lemma {:induction false} NarrowerSelectsFewer(holds: seq<Hold>, narrow: Query, wide: Query)
    requires forall h :: h in holds && Matches(narrow, h) ==> Matches(wide, h)
    ensures |Select(holds, narrow)| <= |Select(holds, wide)|
  {
    if holds != [] {
      assert holds == holds[..|holds| - 1] + [holds[|holds| - 1]];
      NarrowerSelectsFewer(holds[..|holds| - 1], narrow, wide);
    }
  }

  function LegsOf(holds: seq<Hold>): (legs: seq<Leg>)
    ensures |legs| == |holds| && forall i :: 0 <= i < |holds| ==> legs[i] == holds[i].leg
  {
    seq(|holds|, i requires 0 <= i < |holds| => holds[i].leg)
  }

  function Lookup(holds: seq<Hold>, id: string): (found: Option<nat>)
    ensures found.Some? ==> found.value < |holds| && holds[found.value].id == id
    ensures found.None? ==> forall i :: 0 <= i < |holds| ==> holds[i].id != id
  {
    if holds == [] then
      None
    else if holds[|holds| - 1].id == id then
      Some(|holds| - 1)
    else
      Lookup(holds[..|holds| - 1], id)
  }

  /** The first record, in insertion order, issued under this reference. */
  function ByReference(holds: seq<Hold>, reference: string): (found: Option<Hold>)
    ensures found.Some? ==> found.value in holds && found.value.reference == reference
    ensures found.None? <==> forall h :: h in holds ==> h.reference != reference
  {
    if holds == [] then
      None
    else
      var before := ByReference(holds[..|holds| - 1], reference);
      assert holds == holds[..|holds| - 1] + [holds[|holds| - 1]];
      if before.Some? then before
      else if holds[|holds| - 1].reference == reference then Some(holds[|holds| - 1])
      else None
  }

  lemma {:induction false} StaysFirst(holds: seq<Hold>, i: nat, reference: string)
    requires i <= |holds| && ByReference(holds[..i], reference).Some?
    ensures ByReference(holds, reference) == ByReference(holds[..i], reference)
    decreases |holds| - i
  {
    if i == |holds| {
      assert holds[..i] == holds;
    } else {
      assert holds[..i + 1][..i] == holds[..i];
      StaysFirst(holds, i + 1, reference);
    }
  }

  /** Where the first record under a reference stands. */
  lemma {:induction false} FirstPosition(holds: seq<Hold>, reference: string) returns (at: nat)
    requires ByReference(holds, reference).Some?
    ensures at < |holds| && ByReference(holds, reference) == Some(holds[at])
    ensures forall i :: 0 <= i < at ==> holds[i].reference != reference
  {
    var before := holds[..|holds| - 1];
    if ByReference(before, reference).Some? {
      at := FirstPosition(before, reference);
    } else {
      at := |holds| - 1;
      assert forall i :: 0 <= i < at ==> holds[i] == before[i] && before[i] in before;
    }
  }

  lemma FirstAtPosition(holds: seq<Hold>, at: nat)
    requires at < |holds| && forall i :: 0 <= i < at ==> holds[i].reference != holds[at].reference
    ensures ByReference(holds, holds[at].reference) == Some(holds[at])
  {
    var upTo := holds[..at + 1];
    assert upTo[..at] == holds[..at] && upTo[|upTo| - 1] == holds[at];
    StaysFirst(holds, at + 1, holds[at].reference);
  }

  // ---- updates ------------------------------------------------------------------------------

  /** Two records that may not both stand: active, same trip, same seat, overlapping legs. */
  predicate Conflict(a: Hold, b: Hold) {
    Active(a.status) && Active(b.status) && a.trip == b.trip && a.seat == b.seat && a.leg.Overlaps(b.leg)
  }

  /** What the insert checks: an active record under another id in the way. The new record's
      own status plays no part. */
  predicate Blocks(existing: Hold, h: Hold) {
    Matches(SeatActive(h.trip, h.seat), existing) && existing.id != h.id && existing.leg.Overlaps(h.leg)
  }

  /** Store under the record's id: replace in place, or append. */
  function Put(holds: seq<Hold>, h: Hold): seq<Hold> {
    var at := Lookup(holds, h.id);
    if at.Some? then holds[at.value := h] else holds + [h]
  }

  /** Storing keeps every other record where it is, and leaves the stored one under its id: in
      place of the record that had it, or at the end. */
  lemma PutStores(holds: seq<Hold>, h: Hold)
    requires Keyed(holds)
    ensures var after := Put(holds, h);
            && |holds| <= |after| && h in after && Keyed(after)
            && (forall i :: 0 <= i < |holds| ==> after[i] == if holds[i].id == h.id then h else holds[i])
            && (|after| == if exists i :: 0 <= i < |holds| && holds[i].id == h.id then |holds| else |holds| + 1)
  {
    var at := Lookup(holds, h.id);
    var after := Put(holds, h);
    if at.Some? {
      assert after[at.value] == h;
    } else {
      assert after[|holds|] == h;
    }
  }

  function AddHold(holds: seq<Hold>, h: Hold): Outcome<seq<Hold>> {
    if exists e :: e in holds && Blocks(e, h) then Err(Overlap) else Ok(Put(holds, h))
  }

  /** An insert is refused exactly when another record, held or confirmed, has the seat booked on
      the trip over part of the leg; a record may be stored again over itself. */
  lemma RefusedIffTaken(holds: seq<Hold>, h: Hold)
    ensures AddHold(holds, h).Err? <==>
            exists e :: e in holds && e.id != h.id && e.trip == h.trip && e.seat == h.seat
                        && (e.status == Held || e.status == Confirmed)
                        && e.leg.origin < h.leg.dest && h.leg.origin < e.leg.dest
    ensures AddHold(holds, h).Err? ==> AddHold(holds, h).error == Overlap
    ensures AddHold(holds, h).Ok? ==> AddHold(holds, h).value == Put(holds, h)
  {
    if e :| e in holds && e.id != h.id && e.trip == h.trip && e.seat == h.seat
            && (e.status == Held || e.status == Confirmed)
            && e.leg.origin < h.leg.dest && h.leg.origin < e.leg.dest {
      assert Blocks(e, h);
    }
  }

  function WithStatus(holds: seq<Hold>, at: nat, status: Status): seq<Hold>
    requires at < |holds|
  {
    holds[at := holds[at].(status := status)]
  }

  predicate Due(h: Hold, now: int) {
    h.status == Held && h.heldUntil <= now
  }

  function Lapsed(h: Hold, now: int): Hold {
    if Due(h, now) then h.(status := Expired) else h
  }

  /** Every held record that is past its deadline expires; nothing else changes. */
  function ExpireDue(holds: seq<Hold>, now: int): (after: seq<Hold>)
    ensures |after| == |holds| && forall i :: 0 <= i < |holds| ==> after[i] == Lapsed(holds[i], now)
  {
    seq(|holds|, i requires 0 <= i < |holds| => Lapsed(holds[i], now))
  }

  /** The records that expiry at this instant retires, in table order. */
  function DueAt(holds: seq<Hold>, now: int): seq<Hold> {
    if holds == [] then
      []
    else
      var last := holds[|holds| - 1];
      DueAt(holds[..|holds| - 1], now) + if Due(last, now) then [Lapsed(last, now)] else []
  }

  /** The retired records are the held ones past their deadline, now marked expired, one each. */
  lemma {:induction false} RetiredAreOverdue(holds: seq<Hold>, now: int)
    ensures forall h :: h in DueAt(holds, now) <==>
              h.status == Expired && h.heldUntil <= now && h.(status := Held) in holds
    ensures |DueAt(holds, now)| <= |holds|
  {
    if holds != [] {
      var before, last := holds[..|holds| - 1], holds[|holds| - 1];
      assert holds == before + [last];
      RetiredAreOverdue(before, now);
    }
  }

  /** No two distinct active bookings on one trip and seat overlap. */
  ghost predicate NoDoubleBooking(holds: seq<Hold>) {
    forall i, j :: 0 <= i < j < |holds| ==> !Conflict(holds[i], holds[j])
  }

  // ---- how a table evolves ----------------------------------------------------------------

  /** The same booking, possibly moved along the status machine by one transition. */
  ghost predicate Advances(a: Hold, b: Hold) {
    b == a.(status := b.status) && (a.status == b.status || Successor(a.status, b.status))
  }

  /** Every booking stays where it is and advances by at most one transition. */
  ghost predicate Progress(a: seq<Hold>, b: seq<Hold>) {
    |a| == |b| && forall i :: 0 <= i < |a| ==> Advances(a[i], b[i])
  }

  lemma ExpiryIsProgress(holds: seq<Hold>, now: int)
    ensures Progress(holds, ExpireDue(holds, now))
  {
    assert Apply(Held, Expire) == Ok(Expired);
  }

  lemma StatusChangeIsProgress(holds: seq<Hold>, at: nat, event: Event)
    requires at < |holds| && CanApply(holds[at].status, event)
    ensures Progress(holds, WithStatus(holds, at, Apply(holds[at].status, event).value))
  {
    assert Successor(holds[at].status, Apply(holds[at].status, event).value);
  }

  /** Status changes that follow the machine can never create a double booking, although
      nothing checks overlap when a status is set. */
  lemma ProgressKeepsNoDoubleBooking(a: seq<Hold>, b: seq<Hold>)
    requires Progress(a, b) && NoDoubleBooking(a)
    ensures NoDoubleBooking(b)
  {
    forall i, j | 0 <= i < j < |b| ensures !Conflict(b[i], b[j]) {
      TransitionsOnlyClimb(a[i].status, b[i].status);
      TransitionsOnlyClimb(a[j].status, b[j].status);
      assert Advances(a[i], b[i]) && Advances(a[j], b[j]) && !Conflict(a[i], a[j]);
    }
  }

  /** An unchecked status change is exactly as safe as the absence of a conflict it would wake. */
  lemma UncheckedStatusChange(holds: seq<Hold>, at: nat, status: Status)
    requires at < |holds| && NoDoubleBooking(holds)
    ensures NoDoubleBooking(WithStatus(holds, at, status)) <==>
            forall i :: 0 <= i < |holds| && i != at ==> !Conflict(holds[i], holds[at].(status := status))
  {
    var after := WithStatus(holds, at, status);
    OverlapIsSymmetric();
    if NoDoubleBooking(after) {
      forall i | 0 <= i < |holds| && i != at ensures !Conflict(holds[i], after[at]) {
        assert after[i] == holds[i];
        if i < at { assert !Conflict(after[i], after[at]); } else { assert !Conflict(after[at], after[i]); }
      }
    }
  }

  lemma OverlapIsSymmetric()
    ensures forall a: Hold, b: Hold :: Conflict(a, b) == Conflict(b, a)
  {
  }

  /** An accepted insert of a record under a fresh id keeps the table free of double bookings. */
  lemma AcceptedInsertIsSafe(holds: seq<Hold>, h: Hold)
    requires NoDoubleBooking(holds) && Lookup(holds, h.id).None?
    requires AddHold(holds, h).Ok?
    ensures AddHold(holds, h).value == holds + [h]
    ensures NoDoubleBooking(holds + [h])
  {
    forall i | 0 <= i < |holds| ensures !Conflict(holds[i], h) {
      assert holds[i] in holds && !Blocks(holds[i], h);
    }
  }
}
