/** The seat-packing optimizer: interval partitioning, best fit, and the standing sweep. */
module Packing {
  import opened Stations
  import opened Sorting
  import opened Depth
  import opened EventSweep

  /** The fewest seats that hold every leg without overlap. */
  method MinSeats(legs: seq<Leg>) returns (peak: nat)
    ensures peak == MaxDepth(legs)
  {
    var events: seq<Key> := [];
    for i := 0 to |legs|
      invariant events == Events(legs[..i])
    {
      EventsOfMore(legs, i);
      events := events + [Key(legs[i].origin, 1, 0)];
      events := events + [Key(legs[i].dest, -1, 0)];
    }
    assert legs[..|legs|] == legs;
    events := Sort(events);
    var depth := 0;
    peak := 0;
    ghost var at: nat := 0;
    for k := 0 to |events|
      invariant depth == Swept(events, k)
      invariant at <= k && peak == Swept(events, at)
      invariant forall j :: 0 <= j <= k ==> Swept(events, j) <= peak
    {
      depth := depth + events[k].minor;
      if peak < depth {
        peak, at := depth, k + 1;
      }
    }
    SweptPeakIsMaxDepth(legs, events, at);
  }

  // ---- pack: greedy interval colouring ------------------------------------------------

  /** The sort key of the i-th leg: origin, then destination, then (the sort is stable) position. */
  function Booking(legs: seq<Leg>, i: nat): Key
    requires i < |legs|
  {
    Key(legs[i].origin, legs[i].dest, i)
  }

  ghost predicate IsProcessingOrder(legs: seq<Leg>, order: seq<Key>) {
    && (forall k :: 0 <= k < |order| ==> 0 <= order[k].tag < |legs| && order[k].major == legs[order[k].tag].origin)
    && (forall j, k :: 0 <= j < k < |order| ==> order[j].tag != order[k].tag && order[j].major <= order[k].major)
  }

  ghost predicate IsComplete(legs: seq<Leg>, order: seq<Key>) {
    forall i: nat {:trigger Booking(legs, i)} :: i < |legs| ==> Booking(legs, i) in order
  }

  method ProcessingOrder(legs: seq<Leg>) returns (order: seq<Key>)
    ensures IsProcessingOrder(legs, order) && IsComplete(legs, order)
  {
    var keys := seq(|legs|, i requires 0 <= i < |legs| => Booking(legs, i));
    order := Sort(keys);
    forall k | 0 <= k < |order|
      ensures 0 <= order[k].tag < |legs| && order[k] == Booking(legs, order[k].tag)
    {
      assert order[k] in keys;
    }
    forall i: nat | i < |legs| ensures Booking(legs, i) in order {
      assert keys[i] in order;
    }
  }

  /** One queue entry per opened seat, keyed by when its final leg so far, last[s], ends. */
  function Entries(legs: seq<Leg>, last: seq<nat>): (entries: set<Key>)
    requires forall s :: 0 <= s < |last| ==> last[s] < |legs|
    ensures forall e :: e in entries <==> 0 <= e.minor < |last| && e == Key(legs[last[e.minor]].dest, e.minor, 0)
  {
    set s: nat | s < |last| :: Key(legs[last[s]].dest, s, 0)
  }

  /** The legs placed so far are properly coloured, and last names each seat's final leg. */
  ghost predicate Placed(legs: seq<Leg>, assignment: seq<nat>, seen: set<nat>, last: seq<nat>)
    requires |assignment| == |legs|
  {
    && (forall i :: i in seen ==> i < |legs| && assignment[i] < |last|)
    && (forall i, j :: i in seen && j in seen && i != j && legs[i].Overlaps(legs[j]) ==> assignment[i] != assignment[j])
    && (forall s :: 0 <= s < |last| ==> last[s] in seen && assignment[last[s]] == s)
    && (forall i :: i in seen ==> legs[i].dest <= legs[last[assignment[i]]].dest)
  }

  /** When even the earliest-freed seat is still busy, every opened seat is busy right here. */
  lemma OpeningASeatIsForced(legs: seq<Leg>, assignment: seq<nat>, seen: set<nat>, last: seq<nat>,
                             free: seq<Key>, i: nat)
    requires |assignment| == |legs| && i < |legs| && i !in seen
    requires Placed(legs, assignment, seen, last)
    requires IsQueue(free, Entries(legs, last))
    requires forall j :: j in seen ==> legs[j].origin <= legs[i].origin
    requires free == [] || legs[i].origin < free[0].major
    ensures |last| + 1 <= MaxDepth(legs)
  {
    var p := legs[i].origin;
    forall s | 0 <= s < |last| ensures legs[last[s]].Contains(p) {
      var e := Key(legs[last[s]].dest, s, 0);
      assert e in Entries(legs, last);
      assert Leq(free[0], e);
    }
    HeldTogetherBound(legs, last + [i], p);
  }

  lemma NewSeatEntry(legs: seq<Leg>, last: seq<nat>, free: seq<Key>, i: nat)
    requires (forall s :: 0 <= s < |last| ==> last[s] < |legs|) && i < |legs|
    requires IsQueue(free, Entries(legs, last))
    ensures IsQueue(Insert(free, Key(legs[i].dest, |last|, 0)), Entries(legs, last + [i]))
  {
    var e := Key(legs[i].dest, |last|, 0);
    PushAdds(free, Entries(legs, last), e);
    assert Entries(legs, last + [i]) == Entries(legs, last) + {e};
  }

  lemma EntriesOfReuse(legs: seq<Leg>, last: seq<nat>, s: nat, i: nat)
    requires (forall t :: 0 <= t < |last| ==> last[t] < |legs|) && i < |legs| && s < |last|
    ensures Entries(legs, last[s := i]) ==
            Entries(legs, last) - {Key(legs[last[s]].dest, s, 0)} + {Key(legs[i].dest, s, 0)}
  {
  }

  lemma ReusedSeatEntry(legs: seq<Leg>, last: seq<nat>, free: seq<Key>, i: nat)
    requires (forall s :: 0 <= s < |last| ==> last[s] < |legs|) && i < |legs|
    requires IsQueue(free, Entries(legs, last)) && free != []
    ensures 0 <= free[0].minor < |last| && free[0].major == legs[last[free[0].minor]].dest
    ensures IsQueue(Insert(free[1..], Key(legs[i].dest, free[0].minor, 0)), Entries(legs, last[free[0].minor := i]))
  {
    var s := free[0].minor;
    var e := Key(legs[i].dest, s, 0);
    PushAdds(free[1..], Entries(legs, last) - {free[0]}, e);
    EntriesOfReuse(legs, last, s, i);
  }

  /** The seat numbers 0, 1, ..., n - 1. */
  function Range(n: nat): (r: set<nat>)
    ensures |r| == n
    ensures forall s: nat :: s in r <==> s < n
  {
    if n == 0 then {} else Range(n - 1) + {n - 1}
  }

  lemma PlaceOnReusedSeat(legs: seq<Leg>, assignment: seq<nat>, seen: set<nat>, last: seq<nat>, i: nat, seat: nat)
    requires |assignment| == |legs| && i < |legs| && i !in seen && seat < |last|
    requires Placed(legs, assignment, seen, last)
    requires legs[last[seat]].dest <= legs[i].origin
    ensures Placed(legs, assignment[i := seat], seen + {i}, last[seat := i])
  {
    forall j | j in seen && assignment[j] == seat ensures !legs[i].Overlaps(legs[j]) {
      assert legs[j].dest <= legs[last[assignment[j]]].dest;
    }
  }

  lemma PlaceOnNewSeat(legs: seq<Leg>, assignment: seq<nat>, seen: set<nat>, last: seq<nat>, i: nat)
    requires |assignment| == |legs| && i < |legs| && i !in seen
    requires Placed(legs, assignment, seen, last)
    ensures Placed(legs, assignment[i := |last|], seen + {i}, last + [i])
  {
  }

  /** Seats handed out are exactly 0, 1, ..., n - 1 where n is the peak depth. */
  lemma AllSeatsUsed(legs: seq<Leg>, assignment: seq<nat>, seen: set<nat>, last: seq<nat>)
    requires |assignment| == |legs| && Placed(legs, assignment, seen, last)
    requires forall i :: 0 <= i < |legs| ==> i in seen
    requires |last| <= MaxDepth(legs)
    ensures ProperColouring(legs, assignment)
    ensures ColoursUsed(assignment) == Range(MaxDepth(legs))
  {
    var used := ColoursUsed(assignment);
    assert used == Range(|last|) by {
      forall s: nat | s < |last| ensures s in used {
        assert assignment[last[s]] == s;
      }
    }
    NoColouringBeatsDepth(legs, assignment);
  }

  /** The first k legs of the processing order are seated, and none of the rest starts earlier. */
  ghost predicate SeatedSoFar(legs: seq<Leg>, order: seq<Key>, k: nat, seen: set<nat>)
    requires k <= |order|
  {
    && (forall i :: i in seen ==> i < |legs|)
    && (forall j :: 0 <= j < k ==> order[j].tag in seen)
    && (forall j, i :: k <= j < |order| && i in seen ==> order[j].tag != i && legs[i].origin <= order[j].major)
  }

  lemma SeatNext(legs: seq<Leg>, order: seq<Key>, k: nat, seen: set<nat>)
    requires IsProcessingOrder(legs, order) && k < |order|
    requires SeatedSoFar(legs, order, k, seen)
    ensures SeatedSoFar(legs, order, k + 1, seen + {order[k].tag})
  {
  }

  lemma EveryLegSeen(legs: seq<Leg>, order: seq<Key>, seen: set<nat>)
    requires IsComplete(legs, order) && forall j :: 0 <= j < |order| ==> order[j].tag in seen
    ensures forall i :: 0 <= i < |legs| ==> i in seen
  {
    forall i | 0 <= i < |legs| ensures i in seen {
      assert Booking(legs, i) in order;
    }
  }

  method Pack(legs: seq<Leg>) returns (assignment: seq<nat>)
    ensures |assignment| == |legs|
    ensures ProperColouring(legs, assignment)
    ensures ColoursUsed(assignment) == Range(MaxDepth(legs))
    ensures forall other: seq<nat> :: |other| == |legs| && ProperColouring(legs, other) ==>
              |ColoursUsed(assignment)| <= |ColoursUsed(other)|
  {
    var order := ProcessingOrder(legs);
    assignment := seq(|legs|, i => 0);
    var free: seq<Key> := [];
    var seatCount: nat := 0;
    ghost var seen: set<nat>, last: seq<nat> := {}, [];
    for k := 0 to |order|
      invariant |assignment| == |legs| && |last| == seatCount <= MaxDepth(legs)
      invariant SeatedSoFar(legs, order, k, seen)
      invariant Placed(legs, assignment, seen, last)
      invariant IsQueue(free, Entries(legs, last))
    {
      var i: nat := order[k].tag;
      var leg := legs[i];
      var seat: nat;
      SeatNext(legs, order, k, seen);
      if free != [] && free[0].major <= leg.origin {
        ReusedSeatEntry(legs, last, free, i);
        PlaceOnReusedSeat(legs, assignment, seen, last, i, free[0].minor);
        seat := free[0].minor;
        free := free[1..];
        last := last[seat := i];
      } else {
        OpeningASeatIsForced(legs, assignment, seen, last, free, i);
        NewSeatEntry(legs, last, free, i);
        PlaceOnNewSeat(legs, assignment, seen, last, i);
        seat := seatCount;
        seatCount := seatCount + 1;
        last := last + [i];
      }
      assignment := assignment[i := seat];
      free := Insert(free, Key(leg.dest, seat, 0));
      seen := seen + {i};
    }
    EveryLegSeen(legs, order, seen);
    AllSeatsUsed(legs, assignment, seen, last);
    forall other: seq<nat> | |other| == |legs| && ProperColouring(legs, other)
      ensures MaxDepth(legs) <= |ColoursUsed(other)|
    {
      NoColouringBeatsDepth(legs, other);
    }
  }
}
