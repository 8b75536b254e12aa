/** Fare arithmetic in integer cents: distance baseline, class multiplier, demand band.
    Kilometres, multipliers and occupancy are exact rationals. */
module Fares {
  import opened Outcomes

  /** Decimal's ROUND_HALF_UP: to the nearest integer, ties away from zero. */
  function RoundCents(value: real): (cents: int)
    ensures -0.5 <= cents as real - value <= 0.5
    ensures value >= 0.0 ==> -0.5 < cents as real - value && 0 <= cents
    ensures value <= 0.0 ==> cents as real - value < 0.5 && cents <= 0
  {
    if value >= 0.0 then (value + 0.5).Floor else -(-value + 0.5).Floor
  }

  /** Rounding never reorders amounts. */
  lemma RoundingIsMonotone(a: real, b: real)
    requires a <= b
    ensures RoundCents(a) <= RoundCents(b)
  {
    if a < b {
      assert (RoundCents(a) - RoundCents(b)) as real <= a - b + 1.0;
    }
  }

  /** A product as a named term, so that proofs can reason about it as a unit. */
  function Times(a: real, b: real): real {
    a * b
  }

  function UnroundedFare(km: real, ratePerKm: int, classMult: real): real {
    Times(Times(ratePerKm as real, km), classMult)
  }

  function DistanceFare(km: real, ratePerKm: int, classMult: real): int {
    RoundCents(UnroundedFare(km, ratePerKm, classMult))
  }

  function Clamp(x: real): (c: real)
    ensures 0.0 <= c <= 1.0
    ensures 0.0 <= x <= 1.0 ==> c == x
  {
    if x < 0.0 then 0.0 else if 1.0 < x then 1.0 else x
  }

  /** Where an occupancy falls in the demand band. */
  function Multiplier(occupancy: real, floor: real, ceiling: real): real {
    floor + Times(ceiling - floor, Clamp(occupancy))
  }

  /** An inverted band is refused. */
  function DemandMultiplier(occupancy: real, floor: real, ceiling: real): Outcome<real> {
    if ceiling < floor then Err(BadConfig) else Ok(Multiplier(occupancy, floor, ceiling))
  }

  /** The second rounding: a whole-cent base fare scaled by demand. */
  function Surge(base: int, mult: real): int {
    RoundCents(Times(base as real, mult))
  }

  function DynamicFare(km: real, ratePerKm: int, classMult: real, occupancy: real, floor: real, ceiling: real)
    : Outcome<int>
  {
    match DemandMultiplier(occupancy, floor, ceiling)
    case Err(error) => Err(error)
    case Ok(mult) => Ok(Surge(DistanceFare(km, ratePerKm, classMult), mult))
  }

  // ---- products of reals, one fact at a time --------------------------------------------

  lemma TimesIsNonNegative(a: real, b: real)
    requires 0.0 <= a && 0.0 <= b
    ensures 0.0 <= Times(a, b)
  {
  }

  lemma TimesDistributes(factor: real, a: real, b: real)
    ensures Times(factor, a + b) == Times(factor, a) + Times(factor, b)
    ensures Times(a + b, factor) == Times(a, factor) + Times(b, factor)
    ensures Times(factor, a) == Times(a, factor)
  {
  }

  lemma ScaleIsMonotone(factor: real, a: real, b: real)
    requires 0.0 <= factor && a <= b
    ensures Times(factor, a) <= Times(factor, b)
    ensures Times(a, factor) <= Times(b, factor)
  {
    TimesIsNonNegative(factor, b - a);
    TimesDistributes(factor, a, b - a);
    TimesDistributes(factor, b, 0.0);
  }

  lemma TimesIsMonotone(a: real, b: real, x: real, y: real)
    requires 0.0 <= a <= b && 0.0 <= x <= y
    ensures 0.0 <= Times(a, x) <= Times(b, y)
  {
    TimesIsNonNegative(a, x);
    ScaleIsMonotone(x, a, b);
    ScaleIsMonotone(b, x, y);
  }

  lemma TimesUnit(a: real)
    ensures Times(a, 0.0) == 0.0 && Times(a, 1.0) == a
    ensures Times(0.0, a) == 0.0 && Times(1.0, a) == a
  {
  }

  /** The multiplier stays inside the band, rises with occupancy, and spans it end to end. */
  lemma MultiplierIsMonotone(occupancy: real, occupancy': real, floor: real, ceiling: real)
    requires occupancy <= occupancy' && floor <= ceiling
    ensures floor <= Multiplier(occupancy, floor, ceiling) <= Multiplier(occupancy', floor, ceiling) <= ceiling
    ensures occupancy <= 0.0 ==> Multiplier(occupancy, floor, ceiling) == floor
    ensures 1.0 <= occupancy ==> Multiplier(occupancy, floor, ceiling) == ceiling
  {
    var width := ceiling - floor;
    TimesUnit(width);
    TimesIsNonNegative(width, Clamp(occupancy));
    ScaleIsMonotone(width, Clamp(occupancy), Clamp(occupancy'));
    ScaleIsMonotone(width, Clamp(occupancy'), 1.0);
  }

  // ---- error bounds ---------------------------------------------------------------------

  function SplitFare(parts: seq<real>, ratePerKm: int, classMult: real): int {
    if parts == [] then
      0
    else
      SplitFare(parts[..|parts| - 1], ratePerKm, classMult) + DistanceFare(parts[|parts| - 1], ratePerKm, classMult)
  }

  function Total(parts: seq<real>): real {
    if parts == [] then 0.0 else Total(parts[..|parts| - 1]) + parts[|parts| - 1]
  }

  lemma UnroundedIsNonNegative(km: real, ratePerKm: int, classMult: real)
    requires 0.0 <= km && 0 <= ratePerKm && 0.0 <= classMult
    ensures 0.0 <= UnroundedFare(km, ratePerKm, classMult)
  {
    TimesIsNonNegative(ratePerKm as real, km);
    TimesIsNonNegative(Times(ratePerKm as real, km), classMult);
  }

  lemma UnroundedAdds(a: real, b: real, ratePerKm: int, classMult: real)
    ensures UnroundedFare(a + b, ratePerKm, classMult)
            == UnroundedFare(a, ratePerKm, classMult) + UnroundedFare(b, ratePerKm, classMult)
  {
    TimesDistributes(ratePerKm as real, a, b);
    TimesDistributes(classMult, Times(ratePerKm as real, a), Times(ratePerKm as real, b));
  }

  lemma UnroundedZero(ratePerKm: int, classMult: real)
    ensures UnroundedFare(0.0, ratePerKm, classMult) == 0.0
  {
    TimesUnit(ratePerKm as real);
    TimesUnit(classMult);
  }

  /** After n roundings of non-negative amounts the sum is off by at most n halves, and by less
      on the low side once there is one. */
  predicate ErrorWithin(fare: int, exact: real, n: nat) {
    var error := fare as real - exact;
    -(n as real) <= 2.0 * error <= n as real && (0 < n ==> -(n as real) < 2.0 * error)
  }

  lemma OneMorePart(fare: int, exact: real, n: nat, value: real)
    requires ErrorWithin(fare, exact, n) && 0.0 <= value
    ensures ErrorWithin(fare + RoundCents(value), exact + value, n + 1)
  {
  }

  lemma {:induction false} SplitFareError(parts: seq<real>, ratePerKm: int, classMult: real)
    requires 0 <= ratePerKm && 0.0 <= classMult && forall km :: km in parts ==> 0.0 <= km
    ensures 0.0 <= Total(parts)
    ensures ErrorWithin(SplitFare(parts, ratePerKm, classMult), UnroundedFare(Total(parts), ratePerKm, classMult),
                        |parts|)
  {
    if parts == [] {
      UnroundedZero(ratePerKm, classMult);
    } else {
      var before, last := parts[..|parts| - 1], parts[|parts| - 1];
      assert parts == before + [last];
      assert last in parts && forall km :: km in before ==> km in parts;
      SplitFareError(before, ratePerKm, classMult);
      UnroundedIsNonNegative(last, ratePerKm, classMult);
      UnroundedAdds(Total(before), last, ratePerKm, classMult);
      OneMorePart(SplitFare(before, ratePerKm, classMult), UnroundedFare(Total(before), ratePerKm, classMult), |before|,
                  UnroundedFare(last, ratePerKm, classMult));
    }
  }

  /** Selling a journey as k legs instead of one changes the total by less than (k + 1) / 2
      cents; resale with a single change (k = 2) by at most one cent. */
  lemma SplittingALegCostsCents(parts: seq<real>, ratePerKm: int, classMult: real)
    requires 0 <= ratePerKm && 0.0 <= classMult && forall km :: km in parts ==> 0.0 <= km
    requires parts != []
    ensures var change := SplitFare(parts, ratePerKm, classMult) - DistanceFare(Total(parts), ratePerKm, classMult);
            -(|parts| + 1) < 2 * change < |parts| + 1
            && (|parts| == 2 ==> -1 <= change <= 1)
            && (|parts| == 1 ==> change == 0)
  {
    SplitFareError(parts, ratePerKm, classMult);
    UnroundedIsNonNegative(Total(parts), ratePerKm, classMult);
    var change := SplitFare(parts, ratePerKm, classMult) - DistanceFare(Total(parts), ratePerKm, classMult);
    assert -(|parts| as real + 1.0) < 2.0 * change as real < |parts| as real + 1.0;
  }

  lemma ScaledErrorBound(base: real, exact: real, mult: real)
    requires -0.5 <= base - exact <= 0.5 && 0.0 <= mult
    ensures -(mult / 2.0) <= Times(base, mult) - Times(exact, mult) <= mult / 2.0
  {
    ScaleIsMonotone(mult, exact + -0.5, base);
    ScaleIsMonotone(mult, base, exact + 0.5);
    TimesDistributes(mult, exact, -0.5);
    TimesDistributes(mult, exact, 0.5);
    assert Times(0.5, mult) == mult / 2.0 && Times(-0.5, mult) == -(mult / 2.0);
  }

  lemma RoundedErrorBound(product: real, exact: real, slack: real)
    requires -slack <= product - exact <= slack
    ensures -(0.5 + slack) <= RoundCents(product) as real - exact <= 0.5 + slack
  {
  }

  lemma SurgeError(base: int, exact: real, mult: real)
    requires -0.5 <= base as real - exact <= 0.5 && 0.0 <= mult
    ensures -(0.5 + mult / 2.0) <= Surge(base, mult) as real - Times(exact, mult) <= 0.5 + mult / 2.0
  {
    ScaledErrorBound(base as real, exact, mult);
    RoundedErrorBound(Times(base as real, mult), Times(exact, mult), mult / 2.0);
  }

  /** The distance fare is the nearest cent to rate times kilometres times class multiplier, a
      half cent going up. */
  lemma DistanceFareIsNearest(km: real, ratePerKm: int, classMult: real)
    ensures var exact := ratePerKm as real * km * classMult;
            var fare := DistanceFare(km, ratePerKm, classMult) as real;
            && -0.5 <= fare - exact <= 0.5
            && (0.0 <= exact ==> -0.5 < fare - exact)
  {
  }

  /** The demand multiplier, told by cases: the floor when empty, the ceiling when full, and on
      the straight line between them otherwise. */
  lemma MultiplierIsLinear(occupancy: real, floor: real, ceiling: real)
    ensures occupancy <= 0.0 ==> Multiplier(occupancy, floor, ceiling) == floor
    ensures 1.0 <= occupancy ==> Multiplier(occupancy, floor, ceiling) == ceiling
    ensures 0.0 <= occupancy <= 1.0 ==>
              Multiplier(occupancy, floor, ceiling) == floor + (ceiling - floor) * occupancy
  {
    TimesUnit(ceiling - floor);
  }

  /** A dynamic fare is refused exactly for an inverted band; otherwise, with the demand
      multiplier on the straight line from floor to ceiling, it is the nearest cent to the
      distance fare times demand, and within half a cent plus half a cent per unit of demand of
      rate times kilometres times class multiplier times demand. */
  lemma DynamicFareIsNear(km: real, ratePerKm: int, classMult: real, occupancy: real, floor: real, ceiling: real,
                          demand: real)
    requires 0.0 <= occupancy <= 1.0 && 0.0 <= floor
    requires demand == floor + (ceiling - floor) * occupancy
    ensures var fare := DynamicFare(km, ratePerKm, classMult, occupancy, floor, ceiling);
            && (fare.Err? <==> ceiling < floor) && (fare.Err? ==> fare.error == BadConfig)
            && (fare.Ok? ==>
                  && -0.5 <= fare.value as real - DistanceFare(km, ratePerKm, classMult) as real * demand <= 0.5
                  && -(0.5 + demand / 2.0) <= fare.value as real - ratePerKm as real * km * classMult * demand
                                           <= 0.5 + demand / 2.0)
  {
    MultiplierIsLinear(occupancy, floor, ceiling);
    RawProducts(km, ratePerKm, classMult, demand, DistanceFare(km, ratePerKm, classMult));
    DynamicFareNearTimes(km, ratePerKm, classMult, occupancy, floor, ceiling, demand);
  }

  lemma DynamicFareNearTimes(km: real, ratePerKm: int, classMult: real, occupancy: real, floor: real, ceiling: real,
                             mult: real)
    requires 0.0 <= floor && mult == Multiplier(occupancy, floor, ceiling)
    ensures var fare := DynamicFare(km, ratePerKm, classMult, occupancy, floor, ceiling);
            var base := DistanceFare(km, ratePerKm, classMult) as real;
            && (fare.Err? <==> ceiling < floor) && (fare.Err? ==> fare.error == BadConfig)
            && (fare.Ok? ==>
                  && -0.5 <= fare.value as real - Times(base, mult) <= 0.5
                  && -(0.5 + mult / 2.0) <= fare.value as real - Times(UnroundedFare(km, ratePerKm, classMult), mult)
                                         <= 0.5 + mult / 2.0)
  {
    if floor <= ceiling {
      DynamicFareError(km, ratePerKm, classMult, occupancy, floor, ceiling);
    }
  }

  lemma RawProducts(km: real, ratePerKm: int, classMult: real, mult: real, base: int)
    ensures Times(UnroundedFare(km, ratePerKm, classMult), mult) == ratePerKm as real * km * classMult * mult
    ensures Times(base as real, mult) == base as real * mult
  {
  }

  /** Both roundings together stay within half a cent plus half a cent per unit of demand. */
  lemma DynamicFareError(km: real, ratePerKm: int, classMult: real, occupancy: real, floor: real, ceiling: real)
    requires 0.0 <= floor <= ceiling
    ensures DynamicFare(km, ratePerKm, classMult, occupancy, floor, ceiling).Ok?
    ensures var mult := Multiplier(occupancy, floor, ceiling);
            var fare := DynamicFare(km, ratePerKm, classMult, occupancy, floor, ceiling).value;
            var exact := Times(UnroundedFare(km, ratePerKm, classMult), mult);
            -(0.5 + mult / 2.0) <= fare as real - exact <= 0.5 + mult / 2.0
  {
    MultiplierIsMonotone(occupancy, occupancy, floor, ceiling);
    SurgeError(DistanceFare(km, ratePerKm, classMult), UnroundedFare(km, ratePerKm, classMult),
               Multiplier(occupancy, floor, ceiling));
  }

  // ---- monotonicity ---------------------------------------------------------------------

  lemma SurgeIsMonotone(base: int, base': int, mult: real, mult': real)
    requires 0 <= base <= base' && 0.0 <= mult <= mult'
    ensures 0 <= Surge(base, mult) <= Surge(base', mult')
  {
    TimesIsMonotone(base as real, base' as real, mult, mult');
    RoundingIsMonotone(Times(base as real, mult), Times(base' as real, mult'));
  }

  lemma DistanceFareIsMonotone(km: real, km': real, ratePerKm: int, classMult: real)
    requires km <= km' && 0 <= ratePerKm && 0.0 <= classMult
    ensures DistanceFare(km, ratePerKm, classMult) <= DistanceFare(km', ratePerKm, classMult)
    ensures 0.0 <= km ==> 0 <= DistanceFare(km, ratePerKm, classMult)
  {
    ScaleIsMonotone(ratePerKm as real, km, km');
    ScaleIsMonotone(classMult, Times(ratePerKm as real, km), Times(ratePerKm as real, km'));
    RoundingIsMonotone(UnroundedFare(km, ratePerKm, classMult), UnroundedFare(km', ratePerKm, classMult));
    if 0.0 <= km {
      UnroundedIsNonNegative(km, ratePerKm, classMult);
    }
  }

  /** A longer journey or a fuller train never costs less. */
  lemma DynamicFareIsMonotone(km: real, km': real, ratePerKm: int, classMult: real,
                              occupancy: real, occupancy': real, floor: real, ceiling: real)
    requires 0.0 <= km <= km' && occupancy <= occupancy'
    requires 0 <= ratePerKm && 0.0 <= classMult && 0.0 <= floor <= ceiling
    ensures DynamicFare(km, ratePerKm, classMult, occupancy, floor, ceiling).Ok?
    ensures DynamicFare(km', ratePerKm, classMult, occupancy', floor, ceiling).Ok?
    ensures 0 <= DynamicFare(km, ratePerKm, classMult, occupancy, floor, ceiling).value
              <= DynamicFare(km', ratePerKm, classMult, occupancy', floor, ceiling).value
  {
    DistanceFareIsMonotone(km, km', ratePerKm, classMult);
    MultiplierIsMonotone(occupancy, occupancy', floor, ceiling);
    SurgeIsMonotone(DistanceFare(km, ratePerKm, classMult), DistanceFare(km', ratePerKm, classMult),
                    Multiplier(occupancy, floor, ceiling), Multiplier(occupancy', floor, ceiling));
  }
}
