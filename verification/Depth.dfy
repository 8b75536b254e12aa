/** Overlap depth of a list of legs, and why it bounds every seat assignment from below. */
module Depth {
  import opened Stations

  function Holding(legs: seq<Leg>, p: int): set<nat> {
    set i: nat | i < |legs| && legs[i].Contains(p)
  }

  /** The number of legs that are under way at station p. */
  function DepthAt(legs: seq<Leg>, p: int): nat {
    |Holding(legs, p)|
  }

  lemma DepthOfMore(legs: seq<Leg>, leg: Leg, p: int)
    ensures DepthAt(legs + [leg], p) == DepthAt(legs, p) + if leg.Contains(p) then 1 else 0
  {
    var more := legs + [leg];
    if leg.Contains(p) {
      assert Holding(more, p) == Holding(legs, p) + {|legs|};
    } else {
      assert Holding(more, p) == Holding(legs, p);
    }
  }

  function Horizon(legs: seq<Leg>): (h: nat)
    ensures forall l :: l in legs ==> l.dest <= h
  {
    if legs == [] then
      0
    else
      var h := Horizon(legs[1..]);
      assert legs == [legs[0]] + legs[1..];
      if h < legs[0].dest then legs[0].dest else h
  }

  ghost function PeakUpTo(legs: seq<Leg>, n: nat): (m: nat)
    ensures forall p :: 0 <= p <= n ==> DepthAt(legs, p) <= m
    ensures exists p :: 0 <= p <= n && DepthAt(legs, p) == m
  {
    if n == 0 then
      DepthAt(legs, 0)
    else
      var m := PeakUpTo(legs, n - 1);
      if m < DepthAt(legs, n) then DepthAt(legs, n) else m
  }

  /** The most legs under way at any one station. */
  ghost function MaxDepth(legs: seq<Leg>): (m: nat)
    ensures forall p :: DepthAt(legs, p) <= m
    ensures exists p :: DepthAt(legs, p) == m
  {
    var m := PeakUpTo(legs, Horizon(legs));
    assert forall p :: p < 0 || Horizon(legs) < p ==> Holding(legs, p) == {};
    m
  }

  lemma DepthZeroMeansNoLegs(legs: seq<Leg>)
    ensures MaxDepth(legs) == 0 <==> legs == []
  {
    var p :| DepthAt(legs, p) == MaxDepth(legs);
    if legs == [] {
      assert Holding(legs, p) == {};
    } else {
      assert 0 in Holding(legs, legs[0].origin);
      assert DepthAt(legs, legs[0].origin) <= MaxDepth(legs);
    }
  }

  /** Legs that overlap never share a colour. */
  ghost predicate ProperColouring<C(!new)>(legs: seq<Leg>, colours: seq<C>)
    requires |colours| == |legs|
  {
    forall i, j :: 0 <= i < j < |legs| && legs[i].Overlaps(legs[j]) ==> colours[i] != colours[j]
  }

  function ColoursUsed<C>(colours: seq<C>): set<C> {
    set c | c in colours
  }

  lemma {:induction false} InjectiveImageIsLarge<C>(indices: set<nat>, colours: seq<C>, used: set<C>)
    requires forall i :: i in indices ==> i < |colours| && colours[i] in used
    requires forall i, j :: i in indices && j in indices && i != j ==> colours[i] != colours[j]
    ensures |indices| <= |used|
    decreases indices
  {
    if indices != {} {
      var i :| i in indices;
      InjectiveImageIsLarge(indices - {i}, colours, used - {colours[i]});
    }
  }

  /** No assignment that keeps overlapping legs apart uses fewer seats than the peak depth. */
  lemma NoColouringBeatsDepth<C(!new)>(legs: seq<Leg>, colours: seq<C>)
    requires |colours| == |legs|
    requires ProperColouring(legs, colours)
    ensures MaxDepth(legs) <= |ColoursUsed(colours)|
  {
    var p :| DepthAt(legs, p) == MaxDepth(legs);
    InjectiveImageIsLarge(Holding(legs, p), colours, ColoursUsed(colours));
  }

  function Positions(n: nat): (positions: set<nat>)
    ensures |positions| == n
    ensures forall k: nat :: k in positions <==> k < n
  {
    if n == 0 then {} else Positions(n - 1) + {n - 1}
  }

  /** Distinct legs that are all under way at one station number at most the peak depth. */
  lemma HeldTogetherBound(legs: seq<Leg>, indices: seq<nat>, p: int)
    requires forall i, j :: 0 <= i < j < |indices| ==> indices[i] != indices[j]
    requires forall i :: i in indices ==> i < |legs| && legs[i].Contains(p)
    ensures |indices| <= MaxDepth(legs)
  {
    forall k: nat | k < |indices| ensures indices[k] in Holding(legs, p) {
      assert indices[k] in indices;
    }
    InjectiveImageIsLarge(Positions(|indices|), indices, Holding(legs, p));
    assert DepthAt(legs, p) <= MaxDepth(legs);
  }

  lemma {:induction false} SubsetSize<T>(a: set<T>, b: set<T>)
    requires a <= b
    ensures |a| <= |b|
    decreases a
  {
    if a != {} {
      var x :| x in a;
      SubsetSize(a - {x}, b - {x});
    }
  }
}
