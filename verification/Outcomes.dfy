/** Optional values, and results carrying the domain error family of `errors.py`. */
module Outcomes {
  datatype Option<+T> = None | Some(value: T)

  datatype Error =
    | TripMissing            // KeyError from the trip lookup
    | InvalidLeg
    | IllegalTransition
    | Overlap
    | SeatCapExceeded
    | VelocityExceeded
    | AbuseSuspected
    | PaymentDeclined
    | CoachFull
    | BookingNotFound
    | SeatNotBookable
    | BadConfig              // ValueError raised on nonsensical configuration
    | LookupFailed           // KeyError, IndexError or StopIteration from a lookup in a trip

  datatype Outcome<+T> = Ok(value: T) | Err(error: Error)

  /** The values of the results that have one, in order, or the first error. */
  function Collect<T>(results: seq<Outcome<Option<T>>>): Outcome<seq<T>> {
    if results == [] then
      Ok([])
    else
      var before, last := Collect(results[..|results| - 1]), results[|results| - 1];
      if before.Err? then before
      else if last.Err? then Err(last.error)
      else if last.value.None? then before
      else Ok(before.value + [last.value.value])
  }

  lemma {:induction false} ErrorsStay<T>(results: seq<Outcome<Option<T>>>, k: nat)
    requires k <= |results| && Collect(results[..k]).Err?
    ensures Collect(results) == Collect(results[..k])
    decreases |results| - k
  {
    if k == |results| {
      assert results[..k] == results;
    } else {
      assert results[..k + 1][..k] == results[..k];
      ErrorsStay(results, k + 1);
    }
  }

  lemma JoinThree<T>(a: seq<T>, b: seq<T>, c: seq<T>)
    ensures (a + b) + c == a + (b + c)
  {
  }

  /** Collecting keeps the order: what comes from the first results comes first. */
  lemma {:induction false} CollectKeepsOrder<T>(a: seq<Outcome<Option<T>>>, b: seq<Outcome<Option<T>>>)
    ensures Collect(a).Err? ==> Collect(a + b) == Collect(a)
    ensures Collect(a).Ok? && Collect(b).Err? ==> Collect(a + b) == Collect(b)
    ensures Collect(a).Ok? && Collect(b).Ok? ==> Collect(a + b) == Ok(Collect(a).value + Collect(b).value)
    decreases |b|
  {
    if b == [] {
      assert a + b == a;
      assert Collect(a).Ok? ==> Collect(a).value + [] == Collect(a).value;
    } else {
      var before, last := b[..|b| - 1], b[|b| - 1];
      assert (a + b)[..|a + b| - 1] == a + before;
      CollectKeepsOrder(a, before);
      if Collect(a).Ok? && Collect(before).Ok? && last.Ok? && last.value.Some? {
        JoinThree(Collect(a).value, Collect(before).value, [last.value.value]);
      }
    }
  }

  /** Exactly the values there are get collected, and only if nothing failed. */
  lemma {:induction false} CollectedIff<T>(results: seq<Outcome<Option<T>>>)
    requires Collect(results).Ok?
    ensures forall r :: r in results ==> r.Ok?
    ensures forall v :: v in Collect(results).value <==> Ok(Some(v)) in results
  {
    if results != [] {
      var before, last := results[..|results| - 1], results[|results| - 1];
      assert results == before + [last];
      CollectedIff(before);
    }
  }
}
