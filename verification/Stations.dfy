/** Stations and legs: half-open intervals over the line's station sequence. */
module Stations {
  import opened Outcomes

  datatype Station = Station(code: string, name: string, seq_no: int, km: real)

  datatype Span = Span(origin: int, dest: int) {
    function Length(): int {
      dest - origin
    }

    predicate Overlaps(other: Span) {
      origin < other.dest && other.origin < dest
    }

    predicate IsAdjacent(other: Span) {
      dest == other.origin || other.dest == origin
    }

    predicate Contains(p: int) {
      origin <= p < dest
    }
  }

  /** A span that the constructor accepts: it starts on the line and moves forward. */
  type Leg = s: Span | 0 <= s.origin < s.dest witness Span(0, 1)

  function MakeLeg(origin: int, dest: int): (r: Outcome<Leg>)
    ensures r.Ok? <==> 0 <= origin < dest
    ensures r.Ok? ==> forall p :: r.value.Contains(p) <==> origin <= p < dest
    ensures r.Err? ==> r.error == InvalidLeg
  {
    if origin < 0 || dest <= origin then
      Err(InvalidLeg)
    else
      Ok(Span(origin, dest))
  }

  /** Two legs conflict exactly when some station-hop belongs to both. */
  lemma OverlapMeansSharedHop(a: Leg, b: Leg)
    ensures a.Overlaps(b) <==> exists p :: a.Contains(p) && b.Contains(p)
    ensures a.Overlaps(b) <==> b.Overlaps(a)
  {
    if a.Overlaps(b) {
      var p := if a.origin < b.origin then b.origin else a.origin;
      assert a.Contains(p) && b.Contains(p);
    }
  }

  /** The two legs together run over exactly the hops of the third, and share none. */
  ghost predicate Joins(a: Leg, b: Leg, whole: Leg) {
    && (forall p :: whole.origin <= p < whole.dest <==> a.Contains(p) || b.Contains(p))
    && forall p :: !(a.Contains(p) && b.Contains(p))
  }

  /** Segment resale: two legs are adjacent exactly when together they make up one longer leg
      without sharing a hop; then neither conflicts with the other. */
  lemma AdjacentLegsNeverOverlap(a: Leg, b: Leg)
    ensures a.IsAdjacent(b) <==> exists whole :: Joins(a, b, whole)
    ensures a.IsAdjacent(b) ==> !a.Overlaps(b) && !b.Overlaps(a)
  {
    if a.IsAdjacent(b) {
      assert Joins(a, b, if a.dest == b.origin then Span(a.origin, b.dest) else Span(b.origin, a.dest));
    }
    if whole: Leg :| Joins(a, b, whole) {
      assert !(a.Contains(b.origin) && b.Contains(b.origin)) && !(a.Contains(a.origin) && b.Contains(a.origin));
      assert a.Contains(a.origin) && b.Contains(b.origin);
      var first, second := if a.origin < b.origin then a else b, if a.origin < b.origin then b else a;
      assert whole.origin <= first.origin && second.origin < whole.dest;
      assert a.Contains(first.dest) || b.Contains(first.dest);
    }
  }

  /** The line has a station at this sequence position. */
  predicate OnLine(stations: seq<Station>, p: int) {
    exists s :: s in stations && s.seq_no == p
  }

  /** The i-th station is the last one listed at its sequence position. */
  predicate LastAt(stations: seq<Station>, i: int) {
    && 0 <= i < |stations|
    && forall j :: i < j < |stations| ==> stations[j].seq_no != stations[i].seq_no
  }

  /** Sequence position to kilometre post; a later station with the same position wins. */
  function KmIndex(stations: seq<Station>): (index: map<int, real>)
    ensures forall p :: p in index <==> OnLine(stations, p)
    ensures forall i :: LastAt(stations, i) ==>
              stations[i].seq_no in index && index[stations[i].seq_no] == stations[i].km
  {
    if stations == [] then
      map[]
    else
      var last := stations[|stations| - 1];
      var before := stations[..|stations| - 1];
      assert stations == before + [last];
      assert forall p :: OnLine(stations, p) <==> OnLine(before, p) || p == last.seq_no by {
        assert last in stations;
        assert forall s :: s in stations <==> s in before || s == last;
      }
      assert forall i :: LastAt(stations, i) && i < |before| ==> LastAt(before, i) && last.seq_no != before[i].seq_no;
      KmIndex(before)[last.seq_no := last.km]
  }

  /** Every position on the line has a last station listed there. */
  lemma {:induction false} LastListed(stations: seq<Station>, p: int) returns (i: nat)
    requires OnLine(stations, p)
    ensures LastAt(stations, i) && stations[i].seq_no == p
  {
    var n := |stations| - 1;
    if stations[n].seq_no == p {
      i := n;
    } else {
      var s :| s in stations && s.seq_no == p;
      assert stations == stations[..n] + [stations[n]];
      assert s in stations[..n];
      i := LastListed(stations[..n], p);
    }
  }

  /** The kilometre post indexed for a position is the post of a station there. */
  lemma {:induction false} IndexedPostIsReal(stations: seq<Station>, p: int)
    requires OnLine(stations, p)
    ensures exists s :: s in stations && s.seq_no == p && s.km == KmIndex(stations)[p]
  {
    var before, last := stations[..|stations| - 1], stations[|stations| - 1];
    assert stations == before + [last];
    if p == last.seq_no {
      assert last in stations;
    } else {
      assert OnLine(before, p);
      IndexedPostIsReal(before, p);
      var s :| s in before && s.seq_no == p && s.km == KmIndex(before)[p];
      assert s in stations;
    }
  }

  function LeastKm(stations: seq<Station>): (least: real)
    requires stations != []
    ensures forall s :: s in stations ==> least <= s.km
    ensures exists s :: s in stations && s.km == least
  {
    var last := stations[|stations| - 1];
    assert stations == stations[..|stations| - 1] + [last];
    if |stations| == 1 then last.km
    else
      var rest := LeastKm(stations[..|stations| - 1]);
      if last.km < rest then last.km else rest
  }

  function GreatestKm(stations: seq<Station>): (greatest: real)
    requires stations != []
    ensures forall s :: s in stations ==> s.km <= greatest
    ensures exists s :: s in stations && s.km == greatest
  {
    var last := stations[|stations| - 1];
    assert stations == stations[..|stations| - 1] + [last];
    if |stations| == 1 then last.km
    else
      var rest := GreatestKm(stations[..|stations| - 1]);
      if rest < last.km then last.km else rest
  }

  function RouteKm(stations: seq<Station>): real
    requires stations != []
  {
    GreatestKm(stations) - LeastKm(stations)
  }

  /** The route is as long as the two posts farthest apart. */
  lemma RouteSpansTheLine(stations: seq<Station>)
    requires stations != []
    ensures forall a, b :: a in stations && b in stations ==> a.km - b.km <= RouteKm(stations)
    ensures exists a, b :: a in stations && b in stations && a.km - b.km == RouteKm(stations)
  {
    var greatest, least := GreatestKm(stations), LeastKm(stations);
    assert RouteKm(stations) == greatest - least;
    var a :| a in stations && a.km == greatest;
    var b :| b in stations && b.km == least;
    assert a.km - b.km == RouteKm(stations);
  }

  /** A leg is as long as its destination's post is beyond its origin's, and no leg between
      stations of the line is longer than the route. */
  lemma LegsFitTheRoute(stations: seq<Station>, leg: Leg)
    requires OnLine(stations, leg.origin) && OnLine(stations, leg.dest)
    ensures stations != [] && DistanceKm(leg, KmIndex(stations)) <= RouteKm(stations)
    ensures forall i, j :: LastAt(stations, i) && stations[i].seq_no == leg.origin
                           && LastAt(stations, j) && stations[j].seq_no == leg.dest ==>
              DistanceKm(leg, KmIndex(stations)) == stations[j].km - stations[i].km
  {
    IndexedPostIsReal(stations, leg.origin);
    IndexedPostIsReal(stations, leg.dest);
  }

  function DistanceKm(leg: Leg, km: map<int, real>): real
    requires leg.origin in km && leg.dest in km
  {
    km[leg.dest] - km[leg.origin]
  }
}
