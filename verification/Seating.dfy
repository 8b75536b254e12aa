/** Placing one passenger: best fit over free seats, and the standing-overflow sweep. */
module Seating {
  import opened Outcomes
  import opened Stations
  import opened Depth

  // ---- choose_seat ---------------------------------------------------------------------

  /** No leg already on the seat overlaps the requested one. */
  predicate FreeOver(seat: seq<Leg>, leg: Leg) {
    forall existing :: existing in seat ==> !leg.Overlaps(existing)
  }

  function OccupiedSpan(seat: seq<Leg>): (span: nat) {
    if seat == [] then 0 else OccupiedSpan(seat[..|seat| - 1]) + seat[|seat| - 1].Length()
  }

  /** Hops add up, whatever the legs are. */
  lemma {:induction false} SpansAdd(a: seq<Leg>, b: seq<Leg>)
    ensures OccupiedSpan(a + b) == OccupiedSpan(a) + OccupiedSpan(b)
    ensures forall l: Leg :: OccupiedSpan([l]) == l.dest - l.origin
  {
    if b == [] {
      assert a + b == a;
    } else {
      assert (a + b)[..|a + b| - 1] == a + b[..|b| - 1];
      SpansAdd(a, b[..|b| - 1]);
    }
    forall l: Leg ensures OccupiedSpan([l]) == l.dest - l.origin {
      assert [l][..0] == [];
    }
  }

  /** Somebody sits on the seat over the hop that starts at this station. */
  predicate Taken(seat: seq<Leg>, p: int) {
    exists l :: l in seat && l.origin <= p < l.dest
  }

  function HopsTaken(seat: seq<Leg>): (hops: set<int>)
    ensures forall p :: p in hops <==> Taken(seat, p)
  {
    set p: int | 0 <= p < Horizon(seat) && Taken(seat, p)
  }

  function HopRange(origin: int, dest: int): (hops: set<int>)
    requires origin <= dest
    ensures forall p :: p in hops <==> origin <= p < dest
    ensures |hops| == dest - origin
    decreases dest - origin
  {
    if origin == dest then {} else HopRange(origin, dest - 1) + {dest - 1}
  }

  ghost predicate NobodyShares(seat: seq<Leg>) {
    forall i, j :: 0 <= i < j < |seat| ==> seat[i].dest <= seat[j].origin || seat[j].dest <= seat[i].origin
  }

  /** On a seat that nobody shares, the occupied span is the number of hops taken. */
  lemma {:induction false} SpanCountsHops(seat: seq<Leg>)
    requires NobodyShares(seat)
    ensures OccupiedSpan(seat) == |HopsTaken(seat)|
  {
    if seat == [] {
      assert HopsTaken(seat) == {};
    } else {
      var before, last := seat[..|seat| - 1], seat[|seat| - 1];
      assert seat == before + [last];
      LastIsApart(before, last);
      SpanCountsHops(before);
      OneMoreSpan(before, last);
    }
  }

  lemma TakenOneMore(seat: seq<Leg>, last: Leg, p: int)
    ensures Taken(seat + [last], p) <==> Taken(seat, p) || last.origin <= p < last.dest
  {
    assert last in seat + [last];
    assert forall l :: l in seat + [last] <==> l in seat || l == last;
  }

  lemma TakenElsewhere(seat: seq<Leg>, last: Leg, p: int)
    requires forall l :: l in seat ==> l.dest <= last.origin || last.dest <= l.origin
    ensures Taken(seat, p) ==> !(last.origin <= p < last.dest)
  {
  }

  lemma LastIsApart(seat: seq<Leg>, last: Leg)
    requires NobodyShares(seat + [last])
    ensures NobodyShares(seat) && forall l :: l in seat ==> l.dest <= last.origin || last.dest <= l.origin
  {
    var more := seat + [last];
    forall l | l in seat ensures l.dest <= last.origin || last.dest <= l.origin {
      var i :| 0 <= i < |seat| && seat[i] == l;
      assert more[i].dest <= more[|seat|].origin || more[|seat|].dest <= more[i].origin;
    }
    forall i, j | 0 <= i < j < |seat| ensures seat[i].dest <= seat[j].origin || seat[j].dest <= seat[i].origin {
      assert more[i].dest <= more[j].origin || more[j].dest <= more[i].origin;
    }
  }

  lemma OneMoreSpan(seat: seq<Leg>, last: Leg)
    requires NobodyShares(seat + [last])
    ensures |HopsTaken(seat + [last])| == |HopsTaken(seat)| + last.dest - last.origin
  {
    LastIsApart(seat, last);
    var added := HopRange(last.origin, last.dest);
    forall p ensures p in HopsTaken(seat + [last]) <==> p in HopsTaken(seat) + added {
      TakenOneMore(seat, last, p);
    }
    assert HopsTaken(seat + [last]) == HopsTaken(seat) + added;
    forall p | p in HopsTaken(seat) ensures p !in added {
      TakenElsewhere(seat, last, p);
    }
    assert HopsTaken(seat) !! added;
  }

  /** Best fit: a free seat that is at least as full as every free seat, the first such. */
  ghost predicate IsBestFit(seats: seq<seq<Leg>>, leg: Leg, chosen: Option<nat>) {
    match chosen
    case None =>
      forall i :: 0 <= i < |seats| ==> !FreeOver(seats[i], leg)
    case Some(best) =>
      && best < |seats|
      && FreeOver(seats[best], leg)
      && (forall i :: 0 <= i < |seats| && FreeOver(seats[i], leg) ==>
            OccupiedSpan(seats[i]) < OccupiedSpan(seats[best])
            || (OccupiedSpan(seats[i]) == OccupiedSpan(seats[best]) && best <= i))
  }

  lemma BestFitIsUnique(seats: seq<seq<Leg>>, leg: Leg, a: Option<nat>, b: Option<nat>)
    requires IsBestFit(seats, leg, a) && IsBestFit(seats, leg, b)
    ensures a == b
  {
  }

  /** Best fit, told by intervals and hops: the chosen seat has nobody over any part of the leg,
      and of all such seats it is the first of those with the most hops taken. */
  ghost predicate IsFullestFreeSeat(seats: seq<seq<Leg>>, leg: Leg, chosen: Option<nat>) {
    && (chosen.None? <==> forall i :: 0 <= i < |seats| ==> Clashes(seats[i], leg))
    && (chosen.Some? ==>
          && chosen.value < |seats| && !Clashes(seats[chosen.value], leg)
          && forall i :: 0 <= i < |seats| && !Clashes(seats[i], leg) ==>
               |HopsTaken(seats[i])| < |HopsTaken(seats[chosen.value])|
               || (|HopsTaken(seats[i])| == |HopsTaken(seats[chosen.value])| && chosen.value <= i))
  }

  /** Somebody sits on the seat over part of the leg. */
  predicate Clashes(seat: seq<Leg>, leg: Leg) {
    exists l :: l in seat && l.origin < leg.dest && leg.origin < l.dest
  }

  lemma BestFitIsFullest(seats: seq<seq<Leg>>, leg: Leg, chosen: Option<nat>)
    requires IsBestFit(seats, leg, chosen) && forall i :: 0 <= i < |seats| ==> NobodyShares(seats[i])
    ensures IsFullestFreeSeat(seats, leg, chosen)
  {
    forall i | 0 <= i < |seats|
      ensures OccupiedSpan(seats[i]) == |HopsTaken(seats[i])| && (FreeOver(seats[i], leg) <==> !Clashes(seats[i], leg))
    {
      SpanCountsHops(seats[i]);
    }
  }

  /** The best fit as a function, for use where a method cannot be called. */
  ghost function BestFit(seats: seq<seq<Leg>>, leg: Leg): (chosen: Option<nat>)
    ensures IsBestFit(seats, leg, chosen)
  {
    if seats == [] then
      None
    else
      var last := |seats| - 1;
      var before := BestFit(seats[..last], leg);
      if !FreeOver(seats[last], leg) then before
      else if before.None? || OccupiedSpan(seats[before.value]) < OccupiedSpan(seats[last]) then Some(last)
      else before
  }

  method ChooseSeat(seats: seq<seq<Leg>>, leg: Leg) returns (best: Option<nat>)
    ensures IsBestFit(seats, leg, best)
    ensures best == BestFit(seats, leg)
    ensures (forall i :: 0 <= i < |seats| ==> NobodyShares(seats[i])) ==> IsFullestFreeSeat(seats, leg, best)
  {
    best := None;
    var bestSpan: int := -1;
    for i := 0 to |seats|
      invariant best.Some? ==> best.value < i
      invariant bestSpan == if best.Some? then OccupiedSpan(seats[best.value]) else -1
      invariant IsBestFit(seats[..i], leg, best)
    {
      if FreeOver(seats[i], leg) {
        var span := OccupiedSpan(seats[i]);
        if bestSpan < span {
          best, bestSpan := Some(i), span;
        }
      }
    }
    assert seats[..|seats|] == seats;
    BestFitIsUnique(seats, leg, best, BestFit(seats, leg));
    if forall i :: 0 <= i < |seats| ==> NobodyShares(seats[i]) {
      BestFitIsFullest(seats, leg, best);
    }
  }

  // ---- predict_standing_seats ----------------------------------------------------------

  datatype SeatOffer = SeatOffer(boardSeq: int, seatIndex: nat)

  /** The seat has nobody on it from station `board` up to `dest`. */
  predicate FreeFrom(seat: seq<Leg>, board: int, dest: int) {
    forall b :: b in seat ==> dest <= b.origin || b.dest <= board
  }

  function Blocking(seat: seq<Leg>, origin: int, dest: int): (blocking: seq<Leg>)
    ensures forall b :: b in blocking <==> b in seat && b.origin < dest && origin < b.dest
  {
    if seat == [] then
      []
    else
      var b := seat[|seat| - 1];
      assert seat == seat[..|seat| - 1] + [b];
      var before := Blocking(seat[..|seat| - 1], origin, dest);
      if b.origin < dest && origin < b.dest then before + [b] else before
  }

  function LatestDest(legs: seq<Leg>): (latest: int)
    requires legs != []
    ensures exists b :: b in legs && b.dest == latest
    ensures forall b :: b in legs ==> b.dest <= latest
  {
    var b := legs[|legs| - 1];
    assert legs == legs[..|legs| - 1] + [b];
    if |legs| == 1 then
      b.dest
    else
      var rest := LatestDest(legs[..|legs| - 1]);
      if rest < b.dest then b.dest else rest
  }

  /** The earliest station at which the seat is free for the remainder of the leg. */
  function FreesForRemainder(seat: seq<Leg>, origin: int, dest: int): (board: Option<int>)
    requires origin < dest
    ensures board.Some? ==> origin <= board.value < dest && FreeFrom(seat, board.value, dest)
    ensures board.Some? ==> forall s :: origin <= s < board.value ==> !FreeFrom(seat, s, dest)
    ensures board.None? ==> forall s :: origin <= s < dest ==> !FreeFrom(seat, s, dest)
    ensures board.Some? && origin < board.value ==> exists b :: b in seat && b.dest == board.value
  {
    var blocking := Blocking(seat, origin, dest);
    if blocking == [] then
      Some(origin)
    else
      var freesAt := LatestDest(blocking);
      var b :| b in blocking && b.dest == freesAt;
      assert forall s :: origin <= s < freesAt && FreeFrom(seat, s, dest) ==>
          b in seat && (dest <= b.origin || b.dest <= s);
      if freesAt < dest then Some(freesAt) else None
  }

  /** The passenger's best offer: the earliest boarding station at which some seat is free
      through to the destination, on the lowest-numbered such seat; nothing iff no seat ever is. */
  ghost predicate IsBestOffer(occupancy: seq<seq<Leg>>, leg: Leg, offer: Option<SeatOffer>) {
    match offer
    case None =>
      forall i, s :: 0 <= i < |occupancy| && leg.origin <= s < leg.dest ==> !FreeFrom(occupancy[i], s, leg.dest)
    case Some(best) =>
      && best.seatIndex < |occupancy|
      && leg.origin <= best.boardSeq < leg.dest
      && FreeFrom(occupancy[best.seatIndex], best.boardSeq, leg.dest)
      && (forall i, s :: 0 <= i < |occupancy| && leg.origin <= s < leg.dest && FreeFrom(occupancy[i], s, leg.dest) ==>
            best.boardSeq < s || (best.boardSeq == s && best.seatIndex <= i))
  }

  lemma BestOfferIsUnique(occupancy: seq<seq<Leg>>, leg: Leg, a: Option<SeatOffer>, b: Option<SeatOffer>)
    requires IsBestOffer(occupancy, leg, a) && IsBestOffer(occupancy, leg, b)
    ensures a == b
  {
  }

  /** The best offer as a function, for use where a method cannot be called. */
  ghost function OfferFor(occupancy: seq<seq<Leg>>, leg: Leg): (offer: Option<SeatOffer>)
    ensures IsBestOffer(occupancy, leg, offer)
  {
    if occupancy == [] then
      None
    else
      var n := |occupancy| - 1;
      var offer := Better(OfferFor(occupancy[..n], leg), FreesForRemainder(occupancy[n], leg.origin, leg.dest), n);
      OneMoreSeat(occupancy, leg, OfferFor(occupancy[..n], leg));
      offer
  }

  /** A later seat wins only by freeing strictly earlier. */
  function Better(best: Option<SeatOffer>, board: Option<int>, index: nat): Option<SeatOffer> {
    if board.Some? && (best.None? || board.value < best.value.boardSeq) then Some(SeatOffer(board.value, index))
    else best
  }

  lemma OneMoreSeat(occupancy: seq<seq<Leg>>, leg: Leg, before: Option<SeatOffer>)
    requires occupancy != []
    requires IsBestOffer(occupancy[..|occupancy| - 1], leg, before)
    ensures var n := |occupancy| - 1;
            IsBestOffer(occupancy, leg, Better(before, FreesForRemainder(occupancy[n], leg.origin, leg.dest), n))
  {
  }

  // ---- the queue ---------------------------------------------------------------------------

  /** An earlier passenger, the j-th, was offered this seat. */
  predicate WasOffered(offers: seq<Option<SeatOffer>>, j: int, seat: int) {
    0 <= j < |offers| && offers[j].Some? && offers[j].value.seatIndex == seat
  }

  /** From station `board` to the k-th passenger's destination, neither the seat's own legs nor
      what the passengers earlier in the queue were offered on it are in the way. */
  ghost predicate OpenTo(seats: seq<seq<Leg>>, queue: seq<Leg>, offers: seq<Option<SeatOffer>>,
                         k: int, i: int, board: int)
    requires 0 <= k < |queue| && k <= |offers| && 0 <= i < |seats|
  {
    && (forall b :: b in seats[i] ==> queue[k].dest <= b.origin || b.dest <= board)
    && (forall j :: 0 <= j < k && WasOffered(offers, j, i) ==>
          queue[k].dest <= offers[j].value.boardSeq || queue[j].dest <= board)
  }

  /** The k-th passenger gets the lexicographically least (boarding station, seat) that is open
      to the destination, given what those before were offered; nothing iff none is open. */
  ghost predicate GetsTheLeast(seats: seq<seq<Leg>>, queue: seq<Leg>, offers: seq<Option<SeatOffer>>, k: int)
    requires 0 <= k < |queue| && k < |offers|
  {
    match offers[k]
    case None =>
      forall i, s :: 0 <= i < |seats| && queue[k].origin <= s < queue[k].dest ==> !OpenTo(seats, queue, offers, k, i, s)
    case Some(best) =>
      && best.seatIndex < |seats|
      && queue[k].origin <= best.boardSeq < queue[k].dest
      && OpenTo(seats, queue, offers, k, best.seatIndex, best.boardSeq)
      && (forall i, s :: 0 <= i < |seats| && queue[k].origin <= s < queue[k].dest
                         && OpenTo(seats, queue, offers, k, i, s) ==>
            best.boardSeq < s || (best.boardSeq == s && best.seatIndex <= i))
  }

  ghost predicate IsFifoPrediction(seats: seq<seq<Leg>>, queue: seq<Leg>, offers: seq<Option<SeatOffer>>) {
    |offers| == |queue| && forall k :: 0 <= k < |queue| ==> GetsTheLeast(seats, queue, offers, k)
  }

  /** A leg that some offer so far put on the seat. */
  predicate PutThere(queue: seq<Leg>, offers: seq<Option<SeatOffer>>, j: int, seat: int, b: Leg) {
    WasOffered(offers, j, seat) && j < |queue| && b == Span(offers[j].value.boardSeq, queue[j].dest)
  }

  /** What the sweep keeps: each seat carries its own legs and those of the offers made so far. */
  ghost predicate Carries(seats: seq<seq<Leg>>, queue: seq<Leg>, offers: seq<Option<SeatOffer>>,
                          occupancy: seq<seq<Leg>>) {
    && |occupancy| == |seats|
    && forall i, b :: 0 <= i < |seats| ==>
         (b in occupancy[i] <==> b in seats[i] || exists j :: PutThere(queue, offers, j, i, b))
  }

  method BestOffer(occupancy: seq<seq<Leg>>, leg: Leg) returns (best: Option<SeatOffer>)
    ensures IsBestOffer(occupancy, leg, best)
  {
    best := None;
    for i := 0 to |occupancy|
      invariant IsBestOffer(occupancy[..i], leg, best)
    {
      var board := FreesForRemainder(occupancy[i], leg.origin, leg.dest);
      assert occupancy[..i + 1][..i] == occupancy[..i];
      OneMoreSeat(occupancy[..i + 1], leg, best);
      if board.Some? && (best.None? || board.value < best.value.boardSeq) {
        best := Some(SeatOffer(board.value, i));
      }
    }
    assert occupancy[..|occupancy|] == occupancy;
  }

  /** Being open is being free on the seat as it stands after the earlier offers. */
  lemma OpenMeansFree(seats: seq<seq<Leg>>, queue: seq<Leg>, offers: seq<Option<SeatOffer>>, occupancy: seq<seq<Leg>>,
                      k: nat, i: nat, board: int)
    requires k < |queue| && |offers| == k && i < |seats| && Carries(seats, queue, offers, occupancy)
    requires forall j :: 0 <= j < k ==> GetsTheLeast(seats, queue, offers, j)
    ensures OpenTo(seats, queue, offers, k, i, board) <==> FreeFrom(occupancy[i], board, queue[k].dest)
  {
    if FreeFrom(occupancy[i], board, queue[k].dest) {
      forall j | 0 <= j < k && WasOffered(offers, j, i)
        ensures queue[k].dest <= offers[j].value.boardSeq || queue[j].dest <= board
      {
        assert GetsTheLeast(seats, queue, offers, j);
        var b: Leg := Span(offers[j].value.boardSeq, queue[j].dest);
        assert PutThere(queue, offers, j, i, b);
      }
    }
  }

  lemma LeastOfOccupancy(seats: seq<seq<Leg>>, queue: seq<Leg>, offers: seq<Option<SeatOffer>>,
                         occupancy: seq<seq<Leg>>, k: nat, best: Option<SeatOffer>)
    requires k < |queue| && |offers| == k && Carries(seats, queue, offers, occupancy)
    requires forall j :: 0 <= j < k ==> GetsTheLeast(seats, queue, offers, j)
    requires IsBestOffer(occupancy, queue[k], best)
    ensures GetsTheLeast(seats, queue, offers + [best], k)
  {
    forall i: nat, s | i < |seats|
      ensures OpenTo(seats, queue, offers + [best], k, i, s) <==> FreeFrom(occupancy[i], s, queue[k].dest)
    {
      OpenMeansFree(seats, queue, offers, occupancy, k, i, s);
      LaterOffersDoNotMatter(seats, queue, offers, [best], k, i, s);
    }
  }

  lemma LaterOffersDoNotMatter(seats: seq<seq<Leg>>, queue: seq<Leg>, offers: seq<Option<SeatOffer>>,
                               more: seq<Option<SeatOffer>>, k: nat, i: nat, board: int)
    requires k < |queue| && k <= |offers| && i < |seats|
    ensures OpenTo(seats, queue, offers + more, k, i, board) <==> OpenTo(seats, queue, offers, k, i, board)
  {
    assert forall j :: 0 <= j < k ==> (offers + more)[j] == offers[j];
    assert forall j :: 0 <= j < k ==> (WasOffered(offers + more, j, i) <==> WasOffered(offers, j, i));
  }

  lemma EarlierOffersStand(seats: seq<seq<Leg>>, queue: seq<Leg>, offers: seq<Option<SeatOffer>>,
                           more: seq<Option<SeatOffer>>, k: nat)
    requires k < |queue| && k < |offers| && GetsTheLeast(seats, queue, offers, k)
    ensures GetsTheLeast(seats, queue, offers + more, k)
  {
    forall i: nat, s | i < |seats|
      ensures OpenTo(seats, queue, offers + more, k, i, s) <==> OpenTo(seats, queue, offers, k, i, s)
    {
      LaterOffersDoNotMatter(seats, queue, offers, more, k, i, s);
    }
  }

  lemma OneMoreCarried(seats: seq<seq<Leg>>, queue: seq<Leg>, offers: seq<Option<SeatOffer>>, before: seq<seq<Leg>>,
                       after: seq<seq<Leg>>, best: Option<SeatOffer>)
    requires |offers| < |queue| && Carries(seats, queue, offers, before)
    requires best.Some? ==>
               && best.value.seatIndex < |seats| && 0 <= best.value.boardSeq < queue[|offers|].dest
               && var i := best.value.seatIndex;
                  after == before[i := before[i] + [Span(best.value.boardSeq, queue[|offers|].dest)]]
    requires best.None? ==> after == before
    ensures Carries(seats, queue, offers + [best], after)
  {
    var k := |offers|;
    forall i, b: Leg | 0 <= i < |seats|
      ensures b in after[i] <==> b in seats[i] || exists j :: PutThere(queue, offers + [best], j, i, b)
    {
      forall j | PutThere(queue, offers, j, i, b) ensures PutThere(queue, offers + [best], j, i, b) {
      }
      if PutThere(queue, offers + [best], k, i, b) {
        assert b in after[i];
      }
      forall j | PutThere(queue, offers + [best], j, i, b) ensures j == k || PutThere(queue, offers, j, i, b) {
      }
      if b in after[i] && b !in before[i] {
        assert PutThere(queue, offers + [best], k, i, b);
      }
    }
  }

  method PredictStandingSeats(seats: seq<seq<Leg>>, queue: seq<Leg>) returns (offers: seq<Option<SeatOffer>>)
    ensures IsFifoPrediction(seats, queue, offers)
  {
    var occupancy: seq<seq<Leg>> := seats;
    offers := [];
    for k := 0 to |queue|
      invariant |offers| == k
      invariant Carries(seats, queue, offers, occupancy)
      invariant forall j :: 0 <= j < k ==> GetsTheLeast(seats, queue, offers, j)
    {
      var best := BestOffer(occupancy, queue[k]);
      ghost var before, carried := offers, occupancy;
      LeastOfOccupancy(seats, queue, offers, occupancy, k, best);
      forall j | 0 <= j < k ensures GetsTheLeast(seats, queue, offers + [best], j) {
        EarlierOffersStand(seats, queue, offers, [best], j);
      }
      offers := offers + [best];
      if best.Some? {
        var i := best.value.seatIndex;
        occupancy := occupancy[i := occupancy[i] + [Span(best.value.boardSeq, queue[k].dest)]];
      }
      OneMoreCarried(seats, queue, before, carried, occupancy, best);
    }
  }

  /** A queue of one gets the best offer of the seats as they are. */
  lemma FirstInQueue(seats: seq<seq<Leg>>, leg: Leg, offers: seq<Option<SeatOffer>>)
    requires IsFifoPrediction(seats, [leg], offers)
    ensures IsBestOffer(seats, leg, offers[0])
  {
    assert GetsTheLeast(seats, [leg], offers, 0);
    forall i: nat, s | i < |seats| ensures OpenTo(seats, [leg], offers, 0, i, s) <==> FreeFrom(seats[i], s, leg.dest) {
    }
  }

  /** No two passengers are ever offered one seat at once, and nobody is offered a seat while its
      own bookings are on it; every offer starts and ends within the passenger's own leg. */
  lemma PromotionsNeverDoubleSeat(seats: seq<seq<Leg>>, queue: seq<Leg>, offers: seq<Option<SeatOffer>>, k: nat)
    requires IsFifoPrediction(seats, queue, offers) && k < |queue| && offers[k].Some?
    ensures var offer := offers[k].value;
            && offer.seatIndex < |seats|
            && queue[k].origin <= offer.boardSeq < queue[k].dest
            && (forall b :: b in seats[offer.seatIndex] ==> queue[k].dest <= b.origin || b.dest <= offer.boardSeq)
            && (forall j :: 0 <= j < |queue| && j != k && offers[j].Some?
                            && offers[j].value.seatIndex == offer.seatIndex ==>
                  queue[k].dest <= offers[j].value.boardSeq || queue[j].dest <= offer.boardSeq)
  {
    var seat := offers[k].value.seatIndex;
    assert GetsTheLeast(seats, queue, offers, k);
    forall j | 0 <= j < |queue| && j != k && offers[j].Some? && offers[j].value.seatIndex == seat
      ensures queue[k].dest <= offers[j].value.boardSeq || queue[j].dest <= offers[k].value.boardSeq
    {
      assert WasOffered(offers, j, seat) && WasOffered(offers, k, seat);
      assert GetsTheLeast(seats, queue, offers, j);
    }
  }

  /** The FIFO rule leaves no choice: seats and queue determine every offer. */
  lemma {:induction false} PredictionIsUnique(seats: seq<seq<Leg>>, queue: seq<Leg>,
                                              a: seq<Option<SeatOffer>>, b: seq<Option<SeatOffer>>, k: nat)
    requires IsFifoPrediction(seats, queue, a) && IsFifoPrediction(seats, queue, b) && k <= |queue|
    ensures a[..k] == b[..k]
    ensures k == |queue| ==> a == b
  {
    if 0 < k {
      var n := k - 1;
      PredictionIsUnique(seats, queue, a, b, n);
      assert a == a[..n] + a[n..] && b == b[..n] + b[n..];
      forall i: nat, s | i < |seats| ensures OpenTo(seats, queue, a, n, i, s) <==> OpenTo(seats, queue, b, n, i, s) {
        LaterOffersDoNotMatter(seats, queue, a[..n], a[n..], n, i, s);
        LaterOffersDoNotMatter(seats, queue, b[..n], b[n..], n, i, s);
      }
      assert GetsTheLeast(seats, queue, a, n) && GetsTheLeast(seats, queue, b, n);
      assert a[n] == b[n];
      assert a[..k] == a[..n] + [a[n]] && b[..k] == b[..n] + [b[n]];
    }
  }

  // ---- impact_seat_km ------------------------------------------------------------------

  function ImpactSeatKm(legs: seq<Leg>, km: map<int, real>, routeKm: real): real
    requires forall l :: l in legs ==> l.origin in km && l.dest in km
  {
    if legs == [] then
      0.0
    else
      ImpactSeatKm(legs[..|legs| - 1], km, routeKm) + (routeKm - DistanceKm(legs[|legs| - 1], km))
  }

  /** Each leg reclaims what it leaves of the route. */
  lemma ReclaimedOneMore(legs: seq<Leg>, leg: Leg, km: map<int, real>, routeKm: real)
    requires forall l :: l in legs ==> l.origin in km && l.dest in km
    requires leg.origin in km && leg.dest in km
    ensures ImpactSeatKm([], km, routeKm) == 0.0
    ensures ImpactSeatKm(legs + [leg], km, routeKm)
            == ImpactSeatKm(legs, km, routeKm) + routeKm - (km[leg.dest] - km[leg.origin])
  {
    assert (legs + [leg])[..|legs|] == legs;
  }

  /** When no leg is longer than the route, segment booking never reclaims a negative amount,
      and reclaims nothing exactly when every leg runs the whole route. */
  lemma {:induction false} ReclaimedIsNonNegative(legs: seq<Leg>, km: map<int, real>, routeKm: real)
    requires forall l :: l in legs ==> l.origin in km && l.dest in km && DistanceKm(l, km) <= routeKm
    ensures 0.0 <= ImpactSeatKm(legs, km, routeKm)
    ensures ImpactSeatKm(legs, km, routeKm) == 0.0 <==> forall l :: l in legs ==> DistanceKm(l, km) == routeKm
  {
    if legs != [] {
      var before, last := legs[..|legs| - 1], legs[|legs| - 1];
      assert legs == before + [last];
      ReclaimedIsNonNegative(before, km, routeKm);
    }
  }
}
