/** Why sweeping sorted arrivals and departures measures the overlap depth. */
module EventSweep {
  import opened Stations
  import opened Sorting
  import opened Depth

  /** Each leg claims a seat at its origin and gives it back at its destination. */
  function Events(legs: seq<Leg>): seq<Key> {
    if legs == [] then
      []
    else
      var leg := legs[|legs| - 1];
      Events(legs[..|legs| - 1]) + [Key(leg.origin, 1, 0), Key(leg.dest, -1, 0)]
  }

  /** The running depth after the first k events. */
  function Swept(events: seq<Key>, k: nat): int
    requires k <= |events|
  {
    if k == 0 then 0 else Swept(events, k - 1) + events[k - 1].minor
  }

  /** The net claim of all events at or before p, whatever order they are listed in. */
  function NetBy(events: seq<Key>, p: int): int {
    if events == [] then
      0
    else
      var e := events[|events| - 1];
      NetBy(events[..|events| - 1], p) + if e.major <= p then e.minor else 0
  }

  lemma NetBySnoc(events: seq<Key>, e: Key, p: int)
    ensures NetBy(events + [e], p) == NetBy(events, p) + if e.major <= p then e.minor else 0
  {
    assert (events + [e])[..|events|] == events;
  }

  lemma {:induction false} NetByConcat(a: seq<Key>, b: seq<Key>, p: int)
    ensures NetBy(a + b, p) == NetBy(a, p) + NetBy(b, p)
  {
    if b == [] {
      assert a + b == a;
    } else {
      var before, e := b[..|b| - 1], b[|b| - 1];
      assert a + b == (a + before) + [e];
      NetBySnoc(a + before, e, p);
      NetByConcat(a, before, p);
    }
  }

  lemma NetByOfInsert(events: seq<Key>, e: Key, p: int)
    ensures NetBy(Insert(events, e), p) == NetBy(events, p) + if e.major <= p then e.minor else 0
  {
    var head, tail := events[..Slot(events, e)], events[Slot(events, e)..];
    assert events == head + tail;
    NetByConcat(head, tail, p);
    NetByConcat(head + [e], tail, p);
    NetBySnoc(head, e, p);
  }

  lemma {:induction false} NetByOfSorted(events: seq<Key>, p: int)
    ensures NetBy(Sort(events), p) == NetBy(events, p)
  {
    if events != [] {
      NetByOfSorted(events[..|events| - 1], p);
      NetByOfInsert(Sort(events[..|events| - 1]), events[|events| - 1], p);
    }
  }

  lemma {:induction false} NetByIsDepth(legs: seq<Leg>, p: int)
    ensures NetBy(Events(legs), p) == DepthAt(legs, p)
  {
    if legs == [] {
      assert Holding(legs, p) == {};
    } else {
      var before, leg := legs[..|legs| - 1], legs[|legs| - 1];
      assert before + [leg] == legs;
      NetByIsDepth(before, p);
      DepthOfMore(before, leg, p);
      var claim, release := Key(leg.origin, 1, 0), Key(leg.dest, -1, 0);
      assert Events(legs) == Events(before) + [claim] + [release];
      NetBySnoc(Events(before), claim, p);
      NetBySnoc(Events(before) + [claim], release, p);
    }
  }

  lemma {:induction false} NetByWhenAllPast(events: seq<Key>, k: nat, p: int)
    requires k <= |events|
    requires forall i :: 0 <= i < k ==> events[i].major <= p
    ensures NetBy(events[..k], p) == Swept(events, k)
  {
    if k > 0 {
      NetByWhenAllPast(events, k - 1, p);
      assert events[..k] == events[..k - 1] + [events[k - 1]];
      NetBySnoc(events[..k - 1], events[k - 1], p);
    }
  }

  lemma {:induction false} NetByWithoutPastReleases(events: seq<Key>, p: int)
    requires forall e :: e in events ==> p < e.major || 0 <= e.minor
    ensures 0 <= NetBy(events, p)
    ensures (forall e :: e in events ==> p < e.major) ==> NetBy(events, p) == 0
  {
    if events != [] {
      NetByWithoutPastReleases(events[..|events| - 1], p);
    }
  }

  ghost predicate UnitSteps(events: seq<Key>) {
    forall e :: e in events ==> (e.minor == 1 || e.minor == -1) && e.tag == 0
  }

  lemma {:induction false} EventsAreUnitSteps(legs: seq<Leg>)
    ensures UnitSteps(Events(legs))
  {
    if legs != [] {
      EventsAreUnitSteps(legs[..|legs| - 1]);
    }
  }

  lemma NetBySplit(events: seq<Key>, k: nat, p: int)
    requires k <= |events|
    requires forall i :: 0 <= i < k ==> events[i].major <= p
    ensures NetBy(events, p) == Swept(events, k) + NetBy(events[k..], p)
  {
    assert events == events[..k] + events[k..];
    NetByConcat(events[..k], events[k..], p);
    NetByWhenAllPast(events, k, p);
  }

  /** The running depth never exceeds the true depth at some station: departures at a
      coordinate are swept before arrivals, so the sweep never overshoots. */
  lemma {:induction false} SweepNeverOvershoots(events: seq<Key>, k: nat) returns (p: int)
    requires Ordered(events) && UnitSteps(events) && k <= |events|
    ensures Swept(events, k) <= 0 || Swept(events, k) <= NetBy(events, p)
  {
    if k == 0 {
      p := 0;
    } else {
      var e := events[k - 1];
      assert e in events;
      if e.minor == -1 {
        p := SweepNeverOvershoots(events, k - 1);
      } else {
        p := e.major;
        forall x | x in events[k..] ensures p < x.major || 0 <= x.minor {
          assert Leq(e, x) && x in events;
        }
        NetBySplit(events, k, p);
        NetByWithoutPastReleases(events[k..], p);
      }
    }
  }

  function PastCount(events: seq<Key>, p: int): (k: nat)
    ensures k <= |events|
    ensures forall i :: 0 <= i < k ==> events[i].major <= p
    ensures k < |events| ==> p < events[k].major
  {
    if events == [] || p < events[0].major then 0 else 1 + PastCount(events[1..], p)
  }

  /** Every station's depth is reached by the sweep, right after its own events. */
  lemma SweepReachesEveryDepth(events: seq<Key>, p: int) returns (k: nat)
    requires Ordered(events)
    ensures k <= |events| && Swept(events, k) == NetBy(events, p)
  {
    k := PastCount(events, p);
    forall x | x in events[k..] ensures p < x.major {
      assert x == events[k] || Leq(events[k], x);
    }
    NetBySplit(events, k, p);
    NetByWithoutPastReleases(events[k..], p);
  }

  lemma SortedEventsMeasureDepth(legs: seq<Leg>, p: int)
    ensures NetBy(Sort(Events(legs)), p) == DepthAt(legs, p)
    ensures UnitSteps(Sort(Events(legs))) && Ordered(Sort(Events(legs)))
  {
    NetByOfSorted(Events(legs), p);
    NetByIsDepth(legs, p);
    EventsAreUnitSteps(legs);
  }

  /** A swept value no prefix exceeds is the peak depth. */
  lemma SweptPeakIsMaxDepth(legs: seq<Leg>, events: seq<Key>, at: nat)
    requires events == Sort(Events(legs)) && at <= |events|
    requires forall j :: 0 <= j <= |events| ==> Swept(events, j) <= Swept(events, at)
    ensures Swept(events, at) == MaxDepth(legs)
  {
    SortedEventsMeasureDepth(legs, 0);
    var q := SweepNeverOvershoots(events, at);
    SortedEventsMeasureDepth(legs, q);
    assert DepthAt(legs, q) <= MaxDepth(legs);
    var p :| DepthAt(legs, p) == MaxDepth(legs);
    SortedEventsMeasureDepth(legs, p);
    var k := SweepReachesEveryDepth(events, p);
    assert Swept(events, k) <= Swept(events, at);
  }

  lemma EventsOfMore(legs: seq<Leg>, i: nat)
    requires i < |legs|
    ensures Events(legs[..i + 1]) == Events(legs[..i]) + [Key(legs[i].origin, 1, 0), Key(legs[i].dest, -1, 0)]
  {
    assert legs[..i + 1][..i] == legs[..i];
  }
}
