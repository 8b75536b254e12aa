/** The ordering services the packing code takes from the standard library: a sort, and
    the ordered insertion that keeps the smallest entry of a priority queue at the front. */
module Sorting {
  datatype Key = Key(major: int, minor: int, tag: int)

  predicate Leq(a: Key, b: Key) {
    a.major < b.major
    || (a.major == b.major && (a.minor < b.minor || (a.minor == b.minor && a.tag <= b.tag)))
  }

  ghost predicate Ordered(s: seq<Key>) {
    forall i, j :: 0 <= i < j < |s| ==> Leq(s[i], s[j])
  }

  ghost predicate Distinct<T(!new)>(s: seq<T>) {
    forall i, j :: 0 <= i < j < |s| ==> s[i] != s[j]
  }

  /** How many entries come strictly before k. */
  function Slot(s: seq<Key>, k: Key): (j: nat)
    ensures j <= |s|
    ensures forall i :: 0 <= i < j ==> !Leq(k, s[i])
    ensures j < |s| ==> Leq(k, s[j])
  {
    if s == [] || Leq(k, s[0]) then 0 else 1 + Slot(s[1..], k)
  }

  function Insert(s: seq<Key>, k: Key): (r: seq<Key>)
    ensures |r| == |s| + 1
    ensures forall x :: x in r <==> x in s || x == k
  {
    s[..Slot(s, k)] + [k] + s[Slot(s, k)..]
  }

  lemma InsertKeepsOrder(s: seq<Key>, k: Key)
    requires Ordered(s)
    ensures Ordered(Insert(s, k))
  {
    var j := Slot(s, k);
    forall a | j <= a < |s| ensures Leq(k, s[a]) {
      assert Leq(s[j], s[a]) || a == j;
    }
  }

  lemma InsertKeepsDistinct(s: seq<Key>, k: Key)
    requires Distinct(s) && k !in s
    ensures Distinct(Insert(s, k))
  {
  }

  function Sort(s: seq<Key>): (r: seq<Key>)
    ensures |r| == |s|
    ensures Ordered(r)
    ensures forall x :: x in r <==> x in s
    ensures Distinct(s) ==> Distinct(r)
  {
    if s == [] then
      []
    else
      var before, last := s[..|s| - 1], s[|s| - 1];
      var r := Insert(Sort(before), last);
      assert s == before + [last];
      assert Ordered(r) by { InsertKeepsOrder(Sort(before), last); }
      assert Distinct(s) ==> Distinct(r) by {
        if Distinct(s) { InsertKeepsDistinct(Sort(before), last); }
      }
      r
  }

  /** A priority queue holding exactly the given entries, smallest first. */
  ghost predicate IsQueue(queue: seq<Key>, entries: set<Key>)
    decreases queue
  {
    if queue == [] then
      entries == {}
    else
      && queue[0] in entries
      && (forall e :: e in entries ==> Leq(queue[0], e))
      && IsQueue(queue[1..], entries - {queue[0]})
  }

  lemma {:induction false} PushAdds(queue: seq<Key>, entries: set<Key>, e: Key)
    requires IsQueue(queue, entries) && e !in entries
    ensures IsQueue(Insert(queue, e), entries + {e})
  {
    var more := Insert(queue, e);
    if queue == [] || Leq(e, queue[0]) {
      assert more == [e] + queue && more[1..] == queue;
      assert entries + {e} - {e} == entries;
    } else {
      PushAdds(queue[1..], entries - {queue[0]}, e);
      assert more == [queue[0]] + Insert(queue[1..], e) && more[1..] == Insert(queue[1..], e);
      assert entries + {e} - {queue[0]} == entries - {queue[0]} + {e};
    }
  }
}
