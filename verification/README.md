# Segment-resale booking: a verified model

This project models the booking core of a train reservation system that sells one seat several
times over, once per non-overlapping leg of the journey, and proves properties of that model.

* **Legs** are half-open intervals over the line's station sequence. `EventSweep`, `Depth`,
  `Packing` and `Seating` hold the seat-packing algorithms: the event sweep that counts seats,
  the greedy colouring, the best fit of the ticket counter, and the standing-overflow prediction.
* **Bookings** are records in a table keyed by booking id, in insertion order. `Records` has the
  record types and the status machine, `Bookings` the table as a value (queries, insert, status
  change, expiry), `MemoryStore` the mutable store with its snapshot, commit and rollback, and
  `ExcludeTable` the relational table with its partial exclusion constraint.
* **Use cases** are whole transactions. `Transactions` gives each as a function from one world
  (table, clock, generators, charges) to the next; `UseCases` has them as methods that change a
  store step by step, each proved to compute its transaction. A *run* is any serial order of
  transactions, with payment verdicts, abuse scores and clock ticks as arbitrary inputs.
* `Invariants`, `Ledger`, `References`, `Lifecycle`, `Contention`, `Requests`, `Replays`, `Expiry`,
  `Verdicts` and `Guarantees` prove what every transaction keeps and what holds in every state a run can
  reach; `Counterexamples` holds concrete runs that break a documented promise.
* `Fares`, `Support`, `Policy` and `Views` are fares, quotes, the anti-tout gate, and the
  availability, search and impact views; `Receipts` is the ticket receipt. `Flow` is the web
  wizard's cart.

How the model stands for the code: the dict of holds, whose keys are the records' own ids, is an
insertion-ordered sequence with distinct ids (`Keyed` is proved invariant); the repository and the
unit of work, which share one store object, are one class; kilometres, multipliers and occupancy
are exact rationals. The pricing port and the id and reference generators are arbitrary functions:
the theorems about runs hold for every pricing and for every generators whose booking ids never
repeat, as the fake wiring's sequential ones are proved not to and the real wiring's random ones
are meant not to. Seat ids are non-empty and each trip is filed under its own id (`WellFormed`);
trips and configuration are constant through a run. A `KeyError` for an unknown trip and a
`ValueError` for nonsensical configuration are the error values `TripMissing` and `BadConfig`;
lookups inside a trip that raise are `LookupFailed`.

Four places where the code and its own words differ; the model follows the code. For each there is
the exact condition under which the words hold, and a concrete reachable state where they do not:

* Ticket verification calls itself read-only but commits the expiry of overdue holds:
  `Expiry.VerifyIsReadOnlyIff`, `Counterexamples.VerifyingCommitsExpiry`.
* The design plan (PLAN.md, D12) speaks of retiring expired holds for the target seat, while the
  code retires every overdue hold: `Expiry.HoldRetiresItsSeatOnlyIff`,
  `Expiry.SaleRetiresItsSeatOnlyIff`, `Counterexamples.HoldingRetiresElsewhere`.
* A reference is described as the idempotency key of one booking, but a caller may choose the
  reference the generator will draw next: `References.HoldKeepsUniqueIff`,
  `References.SaleKeepsUniqueIff`, `Counterexamples.ReferencesCanClash`. The conditions hold for
  any generator; the concrete clash needs the predictable sequential one, since the real wiring
  draws references from random UUIDs.
* Confirmation promises a receipt or a clean failure, but the receipt is built after the commit
  and raises when the train does not call at an end of the leg:
  `Guarantees.ConfirmationPrintsIffServed`, `Guarantees.SalePrintsIffServed`,
  `Counterexamples.PaidWithoutReceipt`.

## Model

| member | source | states |
|---|---|---|
| Stations.MakeLeg | backend/slr/domain/stations.py:31-37 | a leg is accepted iff it starts on the line and moves forward; it then contains exactly the stations from origin up to, not including, destination |
| Stations.OverlapMeansSharedHop | backend/slr/domain/stations.py:44-52 | two legs overlap iff some station-hop belongs to both, and the relation is symmetric |
| Stations.AdjacentLegsNeverOverlap | backend/slr/domain/stations.py:48-49 | two legs are adjacent iff together they make up one longer leg without sharing a hop, and then they never conflict: segment resale |
| Stations.KmIndex | backend/slr/domain/stations.py:58-60 | indexes exactly the sequence positions that have a station, each with the kilometre post of the last station listed there |
| Stations.RouteSpansTheLine | backend/slr/usecases/impact_report.py:24-25 | the route is as long as the two posts of the line that are farthest apart |
| Stations.LegsFitTheRoute | backend/slr/usecases/impact_report.py:25-26 | a leg is as long as its destination post is beyond its origin post, and no leg between stations of the line is longer than the route |
| EventSweep.SweptPeakIsMaxDepth | backend/slr/domain/packing.py:21-32 | the highest running value of the sorted sweep, departures before arrivals at equal coordinates, is the greatest number of legs under way at one station |
| EventSweep.SweepNeverOvershoots | backend/slr/domain/packing.py:25-27 | no prefix of the sorted sweep exceeds the true depth at some station |
| EventSweep.SweepReachesEveryDepth | backend/slr/domain/packing.py:28-31 | the depth of every station is the running value after some prefix |
| Packing.MinSeats | backend/slr/domain/packing.py:19-32 | returns the maximum overlap depth over all stations, for every list of legs |
| Depth.DepthZeroMeansNoLegs | backend/slr/domain/packing.py:28-32 | the peak depth is 0 exactly for no legs |
| Depth.NoColouringBeatsDepth | backend/slr/domain/packing.py:3-6 | any assignment, with any kind of seat names, that keeps overlapping legs apart uses at least the peak depth of seats |
| Packing.OpeningASeatIsForced | backend/slr/domain/packing.py:43-47 | when even the earliest-freed seat is busy, all open seats are busy at the new leg's origin, so one more is within the peak depth |
| Packing.Pack | backend/slr/domain/packing.py:35-50 | aligned to input order, overlapping legs never share a seat, the seats used are exactly 0..n-1 with n the peak depth, and no proper assignment uses fewer |
| Seating.SpanCountsHops | backend/slr/domain/packing.py:53-54 | on a seat that nobody shares, the occupied span is the number of hops on which somebody sits |
| Seating.SpansAdd | backend/slr/domain/packing.py:53-54 | occupied spans add up, and a single leg occupies destination minus origin |
| Seating.ChooseSeat | backend/slr/domain/packing.py:57-71 | the first of the seats with nobody over the leg that have the most hops taken; none iff every seat has an overlapping leg |
| Seating.BestFitIsUnique | backend/slr/domain/packing.py:57-71 | the best-fit rule determines the seat |
| Seating.FreesForRemainder | backend/slr/domain/packing.py:93-99 | the least boarding station inside the leg from which the seat is free through to the destination, and none iff there is no such station |
| Seating.BestOffer | backend/slr/domain/packing.py:114-118 | the lexicographically least (boarding station, seat index) that is free to the destination, none iff every seat is blocked throughout |
| Seating.PredictStandingSeats | backend/slr/domain/packing.py:102-122 | in queue order each passenger gets the lexicographically least (boarding station, seat) such that the seat's own legs and every earlier offer on it leave the way to the destination free; none iff there is no such pair |
| Seating.PredictionIsUnique | backend/slr/domain/packing.py:105-110 | seats and queue determine every offer |
| Seating.PromotionsNeverDoubleSeat | backend/slr/domain/packing.py:119-121 | two offers of one seat never overlap, no offer overlaps the seat's own legs, and every offer stays inside the passenger's leg |
| Seating.ReclaimedIsNonNegative | backend/slr/domain/packing.py:74-82 | reclaimed seat-km are non-negative, and zero iff every leg runs the whole route |
| Seating.ReclaimedOneMore | backend/slr/domain/packing.py:74-82 | each leg reclaims the route less the distance between its posts |
| Records.TransitionsOnlyClimb | backend/slr/domain/booking_sm.py:24-41 | the successors are exactly HELD to CONFIRMED, CANCELLED or EXPIRED, and CONFIRMED or STANDING to CANCELLED; so statuses climb, never re-enter an active one from outside, and exist exactly from non-terminal ones |
| Identifiers.SequentialNeverRepeats | backend/slr/adapters/seq_ids.py:6-24 | no id and no zero-padded reference is generated twice |
| Bookings.AcceptedInsertIsSafe | backend/slr/adapters/memory_repo.py:44-53 | an accepted insert under a fresh id appends the record and keeps the table free of double bookings |
| Bookings.ProgressKeepsNoDoubleBooking | backend/slr/adapters/memory_repo.py:64-67 | status changes that follow the status machine never create a double booking |
| Bookings.UncheckedStatusChange | backend/slr/adapters/memory_repo.py:64-67 | setting an arbitrary status keeps the table safe iff the changed record then conflicts with nothing |
| Bookings.RefusedIffTaken | backend/slr/adapters/memory_repo.py:44-53 | an insert is refused iff another held or confirmed record has that seat of that trip booked over part of the leg; a record may be stored again over itself |
| Bookings.PutStores | backend/slr/adapters/memory_repo.py:53 | storing replaces the record with that id in place, or appends; every other record stays where it is |
| Bookings.SelectKeepsOrder | backend/slr/adapters/memory_repo.py:69-99 | every listing of bookings keeps the order of the table |
| Bookings.RetiredAreOverdue | backend/slr/adapters/memory_repo.py:101-108 | the records an expiry returns are exactly the held ones past their deadline, marked expired |
| MemoryStore.Store.constructor | backend/slr/adapters/memory_repo.py:112-120 | an empty table with the given trips filed under their ids |
| MemoryStore.LastTripIsKept | backend/slr/adapters/memory_repo.py:116-117 | of several trips under one id the last one given is the one filed |
| MemoryStore.Store.AddHold | backend/slr/adapters/memory_repo.py:44-53 | refused iff an active record under another id overlaps on the same trip and seat; otherwise replaces or appends; a refusal changes nothing |
| MemoryStore.Store.Get | backend/slr/adapters/memory_repo.py:55-56 | the record with the id, or nothing iff no record has it |
| MemoryStore.Store.ByReference | backend/slr/adapters/memory_repo.py:58-62 | the first record, in insertion order, under the reference |
| MemoryStore.Store.SetStatus | backend/slr/adapters/memory_repo.py:64-67 | changes the status of that record and nothing else |
| MemoryStore.Store.ExpireDue | backend/slr/adapters/memory_repo.py:101-108 | every held record at or past its deadline becomes expired, every other record is unchanged, and the expired ones are returned |
| MemoryStore.Store.Enter | backend/slr/adapters/memory_repo.py:122-124 | the snapshot is the present tables |
| MemoryStore.Store.Commit | backend/slr/adapters/memory_repo.py:137-138 | the snapshot is dropped |
| MemoryStore.Store.Rollback | backend/slr/adapters/memory_repo.py:140-145 | the tables are the snapshot's again |
| MemoryStore.Store.Exit | backend/slr/adapters/memory_repo.py:126-135 | uncommitted work is undone, committed work stays |
| ExcludeTable.InsertVerdictsAgree | backend/slr/adapters/orm.py:57-66 | for a fresh record the in-memory insert and the constrained table agree iff nothing blocks the record or it is active with a seat; what memory accepts the table always accepts |
| Policy.GateAgreesWithPolicy | backend/slr/usecases/_policy.py:20-42 | wherever the pure cap and velocity predicates are defined, the gate passes iff both allow one more booking and the score is below the cut-off |
| Policy.RecentIsCounted | backend/slr/domain/policy.py:35-37 | the gate's list of recent bookings has as many entries as the pure predicate counts in its window |
| Policy.GateByCounts | backend/slr/usecases/_policy.py:20-42 | told by counts of table positions: the seat cap refuses iff reached, else velocity iff reached, else the score iff at the cut-off, else nothing |
| Policy.SeatCapOneByOne | backend/slr/domain/policy.py:14-20 | asking for several seats is allowed iff asking for them one after another is |
| Fares.RoundCents | backend/slr/domain/fares.py:30-31 | within half a cent of the amount, ties away from zero on either side of it, never across zero |
| Fares.SplittingALegCostsCents | backend/slr/domain/fares.py:34-36 | selling a journey as k legs changes its total by less than (k+1)/2 cents, by at most one cent for k = 2 |
| Fares.MultiplierIsMonotone | backend/slr/domain/fares.py:39-43 | the multiplier stays in the band, rises with occupancy, and is the floor at or below 0 and the ceiling at or above 1 |
| Fares.DistanceFareIsNearest | backend/slr/domain/fares.py:34-36 | the fare is within half a cent of rate times kilometres times class multiplier, half a cent going up |
| Fares.MultiplierIsLinear | backend/slr/domain/fares.py:39-43 | the floor when empty, the ceiling when full, on the straight line between them otherwise |
| Fares.DynamicFareIsNear | backend/slr/domain/fares.py:46-57 | refused iff the band is inverted; otherwise the nearest cent to the distance fare times demand, and within 1/2 + demand/2 cents of rate times kilometres times class multiplier times demand |
| Fares.DynamicFareIsMonotone | backend/slr/domain/fares.py:46-57 | a longer journey or a fuller train never costs less |
| Support.OccupancyIsAFraction | backend/slr/usecases/_support.py:33-42 | occupancy lies in [0, 1] when active bookings sit on seats of the trip |
| Support.PriceAsksFor | backend/slr/usecases/_support.py:49-58 | whatever pricing is plugged in, it is asked for the distance between the ends' posts, the multiplier configured for the class, and the seats in use over part of the leg out of all seats |
| Support.FixedPriceIs | backend/slr/adapters/fixed_fare.py:8-13 | under the fixed strategy every leg costs the amount |
| Support.DistancePriceIsNear | backend/slr/adapters/distance_fare.py:8-13 | under the distance strategy a leg costs, to half a cent, rate times those kilometres times that multiplier |
| Support.DynamicPriceIsNear | backend/slr/adapters/dynamic_fare.py:8-24 | under the dynamic strategy it costs that times demand, within 1/2 + demand/2 cents, or is refused iff the band is inverted |
| Support.QuotesFollowDemand | backend/slr/usecases/_support.py:49-58 | adding a booking never lowers a quote; cancellation, expiry or any progress of the status machine never raises one |
| Views.SeatViews | backend/slr/usecases/leg_availability.py:35-47 | one entry per seat, available iff no active booking on that seat overlaps the leg |
| Views.AvailableMeansBookable | backend/slr/usecases/leg_availability.py:44 | a seat is shown available iff inserting a fresh hold on it would succeed |
| Views.FreeCountsAgree | backend/slr/usecases/search_trains.py:111-123 | the set-based free count of a class equals the number of its reserved seats the seat map shows available |
| Views.SearchMatchesSeatMap | backend/slr/usecases/search_trains.py:111-130 | a train's options are exactly the classes with reserved seats, each once and in the order asked, each with the seat map's free count and the quoted fare |
| Views.SearchKeepsOrder | backend/slr/usecases/search_trains.py:84-92 | the list keeps the order of departure it is given |
| Views.PackedSeatsFitTheTrip | backend/slr/usecases/impact_report.py:23-30 | the packed seat count is at most the number of distinct booked seats, which is at most the number of seats of the trip |
| Views.ImpactIsNonNegative | backend/slr/usecases/impact_report.py:25-31 | whenever a report is given, its reclaimed seat-km are not negative |
| Views.OneMoreBookingReported | backend/slr/usecases/impact_report.py:24-32 | one more active booking adds one leg and as many seat-km as the line is long less the length of that leg |
| Receipts.PrintedIffServed | backend/slr/usecases/_receipt.py:68-118 | for a validated leg and sound advice a receipt is built iff the train calls at both ends; it tells the first stations listed there, the times of the train's own calls, the seat, and the advice's station and seat |
| UseCases.Deps.constructor | backend/slr/usecases/_deps.py:18-29 | fresh dependencies: nothing drawn, nothing charged |
| UseCases.Deps.NewId | backend/slr/adapters/seq_ids.py:11-13 | the next id, never undone by a rollback |
| UseCases.Deps.NewReference | backend/slr/adapters/seq_ids.py:22-24 | the next reference, never undone by a rollback |
| UseCases.Deps.ChargeFare | backend/slr/adapters/fake_payment.py:19-26 | records every charge with its verdict |
| UseCases.Deps.Advance | backend/slr/adapters/fake_clock.py:13-16 | the clock only moves forward |
| UseCases.Deps.HoldSeat | backend/slr/usecases/hold_seat.py:27-73 | check by check computes the hold transaction: replay, expiry, trip, leg, seat, gate, names drawn, price fixed, insert, commit or rollback |
| UseCases.Deps.EnforceAntiTout | backend/slr/usecases/_policy.py:20-42 | the first of seat cap, velocity and abuse score that refuses the passenger |
| UseCases.Deps.PlaceHold | backend/slr/usecases/hold_seat.py:51-73 | the drafting part: names stay drawn even when the price or the insert fails |
| UseCases.Deps.ConfirmBooking | backend/slr/usecases/confirm_booking.py:18-44 | computes the confirmation transaction: expire, guard, charge, set status, commit |
| UseCases.Deps.CancelBooking | backend/slr/usecases/cancel_booking.py:18-40 | computes the cancellation transaction |
| UseCases.Deps.VerifyTicket | backend/slr/usecases/verify_ticket.py:47-58 | computes the verification transaction |
| UseCases.Deps.SellUnreserved | backend/slr/usecases/sell_unreserved.py:23-101 | computes the counter-sale transaction |
| UseCases.Deps.Allocate | backend/slr/usecases/sell_unreserved.py:56-64 | the best-fit seat, else standing with its prediction, else full |
| UseCases.Deps.Settle | backend/slr/usecases/sell_unreserved.py:67-101 | reference, charge, id, insert, commit; a declined charge rolls back |
| UseCases.Deps.LegAvailability | backend/slr/usecases/leg_availability.py:29-51 | computes the availability transaction: one entry per seat, and the free count |
| UseCases.Deps.SearchOne | backend/slr/usecases/search_trains.py:99-145 | one train's option, with its stations, times, distance and classes, or nothing if it does not serve the journey |
| UseCases.Deps.SearchTrains | backend/slr/usecases/search_trains.py:69-92 | computes the search transaction over the trips of the day; equal stations are refused before any unit of work |
| UseCases.Deps.ImpactReport | backend/slr/usecases/impact_report.py:20-32 | reports active legs, packed seats and reclaimed seat-km, raises without a line or on a leg off the line, and leaves the world as it was |
| UseCases.Deps.Perform | backend/slr/adapters/memory_repo.py:122-145 | one command takes the store exactly to its transaction's state; a refused one leaves the stored tables as they were, whatever was done inside the unit of work |
| UseCases.Deps.PerformAll | backend/slr/ports/repository.py:125-142 | any run of commands against a fresh store leaves it in the run's state: no double booking, every limit kept, the table's constraint satisfied, the books balanced |
| Invariants.SaleInsertSucceeds | backend/slr/usecases/sell_unreserved.py:72-89 | the ticket drafted by a sale, seated or standing, is always accepted by the insert |
| Invariants.StepMoves | backend/slr/ports/repository.py:78-122 | every transaction either advances existing bookings or retires overdue holds and appends one admitted booking |
| Invariants.RunsNeverDoubleBook | backend/slr/adapters/memory_repo.py:44-67 | in every reachable state, of two held or confirmed records on one trip and seat, one leaves no later than the other boards |
| Invariants.RunsAreSound | backend/slr/adapters/memory_repo.py:44-67 | the inductive invariant behind it: no conflicts, unique ids, and every record's trip, leg and seat were validated |
| Invariants.RunsStayWithinLimits | backend/slr/usecases/_policy.py:20-32 | in every reachable state, counted by table positions: held and confirmed bookings per passenger and trip stay within the seat cap, those made in any trailing window within the velocity limit, standing tickets within capacity |
| Ledger.BooksAlwaysBalance | backend/slr/usecases/confirm_booking.py:28-43 | over any run the accepted charges are, as a multiset, the references and fares of the bookings ever paid; confirmed and standing bookings are among them, held and expired ones are not |
| Ledger.EverPaidMeans | backend/slr/usecases/confirm_booking.py:28-36 | a booking counts as ever paid iff after some number of commands its record was confirmed or standing |
| References.ChargesMatchBookings | backend/slr/usecases/confirm_booking.py:28-43 | over any run, for every reference and amount, as many charges were accepted as there are bookings under that reference at that fare that were ever paid |
| References.MoneyIsConserved | backend/slr/usecases/sell_unreserved.py:66-89 | over any run the money taken equals the sum of fares of the bookings ever paid |
| References.OneChargePerPaidBooking | backend/slr/usecases/confirm_booking.py:32-36 | with unique references, exactly one accepted charge of the stored fare for every booking ever paid, and none for any other reference |
| References.HoldKeepsUniqueIff | backend/slr/usecases/hold_seat.py:40-53 | after a placed hold references are unique iff the caller supplied one or the one to be generated is not stored |
| References.SaleKeepsUniqueIff | backend/slr/usecases/sell_unreserved.py:36-67 | the same for a counter sale |
| References.ReferencesStayUnique | backend/slr/ports/repository.py:97-99 | in runs whose callers avoid generated names, a reference names at most one booking |
| Lifecycle.BookingsOnlyAdvance | backend/slr/domain/booking_sm.py:24-30 | over any run a booking keeps every field but its status, which follows the status machine; terminal bookings are never touched |
| Lifecycle.AtMostTwoChanges | backend/slr/domain/booking_sm.py:24-30 | a status changes at most twice, at most once after payment |
| Lifecycle.ConfirmOnlyBeforeDeadline | backend/slr/usecases/confirm_booking.py:22-36 | a successful confirmation is for the one stored hold with that id, strictly before its deadline, and charges its fare |
| Requests.HoldSucceedsIff | backend/slr/usecases/hold_seat.py:40-73 | exactly when a hold is placed, and what record it leaves |
| Requests.HoldRefusals | backend/slr/usecases/hold_seat.py:45-66 | trip, leg, seat, gate, price and table are judged in this order, and the first in the way gives the error |
| Requests.HoldLeaves | backend/slr/usecases/hold_seat.py:51-73 | the record a hold leaves, field by field, and the world it leaves: unexpired table plus that record, one id drawn, a reference only if none was given, no charge |
| Requests.HoldRefusedLeaves | backend/slr/usecases/hold_seat.py:35-66 | a refused hold leaves the world as it was, but names drawn after the checks stay drawn |
| Requests.SaleSucceedsIff | backend/slr/usecases/sell_unreserved.py:36-101 | exactly when a counter sale succeeds |
| Requests.SaleRefusals | backend/slr/usecases/sell_unreserved.py:45-70 | trip, leg, gate, pool, room, price and payment are judged in this order, and the first in the way gives the error |
| Requests.SaleLeaves | backend/slr/usecases/sell_unreserved.py:51-101 | the ticket a sale leaves, field by field: confirmed on the first of the unblocked pool seats booked over the most hops, else standing without a seat; charged once at the quoted fare |
| Requests.SaleRefusedLeaves | backend/slr/usecases/sell_unreserved.py:35-70 | a refused sale leaves the world as it was, but a declined charge stays on record |
| Requests.PoolKeepsOrder | backend/slr/usecases/sell_unreserved.py:104-109 | the pool keeps the trip's order of seats |
| Requests.ConfirmOutcomes | backend/slr/usecases/confirm_booking.py:22-43 | exactly when a confirmation succeeds, is unknown, is illegal, or is declined |
| Requests.ConfirmLeaves | backend/slr/usecases/confirm_booking.py:22-44 | a confirmation marks that booking confirmed, retires overdue holds, charges its stored fare, and changes nothing else |
| Requests.ConfirmRefusedLeaves | backend/slr/usecases/confirm_booking.py:18-34 | a refused one leaves the world as it was, but a declined charge stays on record |
| Requests.CancelOutcomes | backend/slr/usecases/cancel_booking.py:21-40 | exactly when a cancellation succeeds, is unknown or is illegal; an overdue hold can still be cancelled |
| Requests.CancelLeaves | backend/slr/usecases/cancel_booking.py:28-40 | a cancellation marks that booking cancelled, standing tickets included, and changes nothing else; refused, it changes nothing |
| Replays.RefusalsLeaveNoTrace | backend/slr/usecases/sell_unreserved.py:33-101 | in every reachable state a refused transaction leaves table and clock as they were and takes no money |
| Replays.ReplaysChangeNothing | backend/slr/usecases/hold_seat.py:40-43 | once a reference is stored, then after any continuation of the run a hold or sale that repeats it is answered with that very booking, as far along as it is, and changes nothing |
| Replays.HoldRetryIsIdempotent | backend/slr/usecases/hold_seat.py:40-43 | whatever happens after a successful hold under one's own reference, the same request returns the same booking and changes nothing |
| Replays.SaleRetryReturnsTheTicket | backend/slr/usecases/sell_unreserved.py:36-43 | the same for a counter sale, except that the standing prediction is gone: the answer equals the first iff there was none and the ticket has not changed status |
| Expiry.ReadsLeaveNoTraceIff | backend/slr/usecases/leg_availability.py:29-48 | a query changes nothing iff it is refused or no hold is overdue |
| Expiry.VerifyIsReadOnlyIff | backend/slr/usecases/verify_ticket.py:47-58 | verification changes nothing iff the reference is unknown or no stored hold is overdue |
| Expiry.HoldRetiresItsSeatOnlyIff | backend/slr/usecases/hold_seat.py:45 | a placed hold leaves every record off its own trip and seat as it was iff none of them is overdue |
| Expiry.SaleRetiresItsSeatOnlyIff | backend/slr/usecases/sell_unreserved.py:45 | the same for a counter sale and the seat it assigns |
| Counterexamples.VerifyingCommitsExpiry | backend/slr/usecases/verify_ticket.py:47-58 | a reachable state with one overdue hold in which verification changes the table |
| Counterexamples.HoldingRetiresElsewhere | backend/slr/usecases/hold_seat.py:45 | a reachable state in which a hold on one seat retires the hold on another |
| Counterexamples.ReferencesCanClash | backend/slr/usecases/hold_seat.py:53 | a concrete two-request run under the sequential generator leaves two bookings under one reference |
| Counterexamples.PaidWithoutReceipt | backend/slr/usecases/confirm_booking.py:43-44 | a reachable state in which a confirmation takes the money, commits, and then raises at its receipt |
| Guarantees.AcceptedChargeBuysATicket | backend/slr/usecases/sell_unreserved.py:68-100 | in every reachable state a transaction that takes money commits exactly one booking into a paid status, for that reference and amount, and no other booking becomes paid |
| Guarantees.ConfirmationPrintsIffServed | backend/slr/usecases/confirm_booking.py:43-44 | in every reachable state the receipt of a committed confirmation is built iff the train calls at both ends of the leg |
| Guarantees.SalePrintsIffServed | backend/slr/usecases/sell_unreserved.py:100-101 | the same for a counter sale; standing advice never gets in the way and is printed whenever there is an offer |
| Guarantees.StandingIffPoolBlocked | backend/slr/usecases/sell_unreserved.py:59-84 | a ticket is standing iff every pool seat has an active booking overlapping the leg; otherwise it is confirmed on an unblocked pool seat |
| Guarantees.StandingAdviceIsGood | backend/slr/usecases/_receipt.py:83-89 | printed advice names a pool seat and a station of the trip strictly between origin and destination, from which the seat is free to the end |
| Guarantees.StandingAdviceIsEarliest | backend/slr/usecases/sell_unreserved.py:59-64 | in every reachable state a standing passenger is offered the earliest station, and there the first pool seat, from which no booking is in the way to the destination; nothing iff there is no such pair |
| Guarantees.PriceIsLocked | backend/slr/usecases/hold_seat.py:3-6 | confirming a hold charges the fare it had in any earlier state, whatever happened to demand |
| Guarantees.CancellingReopensTheLeg | backend/slr/usecases/cancel_booking.py:3-4 | right after an active booking is cancelled, any hold within its leg on its seat is accepted |
| Guarantees.StoreMirrorsTable | backend/slr/adapters/orm.py:57-66 | in every reachable state the store and the constrained table accept the same inserts, and no committed change ever violates the constraint |
| Guarantees.ReportsFitTheTrain | backend/slr/usecases/impact_report.py:20-32 | in every reachable state the report of a trip with a line succeeds, counts the held and confirmed bookings, needs exactly as many seats as are on board at the busiest station, which fit the booked seats, which fit the trip; it reports no loss, and occupancy is a fraction |
| Guarantees.AvailabilityIsBookability | backend/slr/usecases/leg_availability.py:39-51 | after an availability query a seat is available iff a fresh hold on it for that leg is accepted, and the free count is the number of available seats |
| Guarantees.SearchAgreesWithAvailability | backend/slr/usecases/search_trains.py:99-145 | every entry a search lists is true of its train: stations, calls, times, distance, the classes in order with quoted fares, and free counts as an availability query shows at the same clock |
| Guarantees.ServingTrainsAreListed | backend/slr/usecases/search_trains.py:84-92 | no train of the day that serves the journey is missing from the list |
| Verdicts.VerdictsTellTheTruth | backend/slr/usecases/verify_ticket.py:28-58 | in every reachable state: unknown iff no record has the reference; else the first that has it is valid iff confirmed or standing, which is iff it was ever paid and is not cancelled; unpaid iff held in time; cancelled iff cancelled; expired iff lapsed |
| Verdicts.PaidTicketVerifies | backend/slr/usecases/verify_ticket.py:28-40 | a paid booking that is the first under its reference verifies as valid after any continuation of the run until its cancellation is requested, and as cancelled from then on |
| Verdicts.ConfirmedTicketVerifies | backend/slr/usecases/confirm_booking.py:36-44 | so does a booking once its confirmation has gone through |
| Verdicts.SoldTicketVerifies | backend/slr/usecases/sell_unreserved.py:72-100 | so does a counter ticket, seated or standing, sold under a free reference |
| Contention.RaceHasWinners | backend/slr/adapters/memory_repo.py:44-53 | any serial order of inserts for one free seat leaves the table with exactly the first-come winners appended |
| Contention.WinnersAreMaximal | backend/slr/adapters/memory_repo.py:44-53 | winners never overlap and every loser overlaps a winner |
| Contention.RaceHasSameWinners | backend/slr/adapters/orm.py:57-66 | in any serial order of commits the constrained table ends up with the rows of exactly the same winners |
| Contention.OverlappingRaceHasOneWinner | tests/integration/concurrency/test_concurrency.py:79-84 | of mutually overlapping attempts, in whatever order they commit, exactly the first is stored, in the constrained table and in memory alike |
| Contention.DisjointRaceHasNoLosers | tests/integration/concurrency/test_concurrency.py:87-95 | attempts that never overlap, adjacent ones included, are all stored, in the constrained table and in memory alike |
| Flow.DispatchStaysTidy | web/src/view-core/flow.js:55-119 | every action a screen can dispatch keeps cart seats distinct and every link pointing to a row above |
| Flow.DroppingASeatStaysTidy | web/src/view-core/flow.js:45-53 | dropping a seat keeps the order of the others and everything entered for them, except that its dependants are unlinked |
| Flow.StaysTidyIff | web/src/view-core/flow.js:55-119 | for every action of the reducer, the cart stays tidy iff the action does not add a seat on the passenger step, edit a row outside the cart, or link to anything but a stored passenger on a row above |
| Flow.SelfLinkIsNotTidy | web/src/view-core/flow.js:85-92 | after a session of what the screens offer, the reducer stores a link of a row to itself |
| Flow.ToggleTwiceRestores | web/src/view-core/flow.js:66-73 | picking a seat puts it last, and picking it again restores the cart |
| Flow.EditMerges | web/src/view-core/flow.js:85-92 | an edit changes one row, and there just the fields it sets |
| Flow.ConfirmingSeedsRows | web/src/view-core/flow.js:75-83 | going on to the passenger step gives every seat a row, blank unless one was entered |
| Flow.BackUndoesForward | web/src/view-core/flow.js:104-109 | back undoes each step forward, except after booking |
| Flow.StartForgets | web/src/view-core/flow.js:57-58 | starting and restarting forget everything |
| Flow.ConflictReturnsToSeats | web/src/view-core/flow.js:99-102 | a lost seat leaves the cart with a message, and the wizard on the seat map |
| Flow.SessionsStayTidy | web/src/view-core/flow.js:55-119 | the cart is tidy after any session |
| Flow.ResolveNic | web/src/ui/BookingWizard.svelte:49-56 | the walk up the links ends at the unlinked passenger at the top of the chain, with guard to spare, and returns that passenger's number trimmed |

## Left out

- Postgres sessions, Alembic and locking: only the exclusion constraint and primary key are kept, as a predicate over rows.
- HTTP routes, schemas, error mapping, idempotency middleware, SSE and the Svelte components: plumbing around the modelled calls.
- Ticket formatting and seat labels, notifications, availability events and the abuse score's formula: the score is an arbitrary input, the others have no effect on bookings.
- UseCases.Deps.ConfirmBooking: the outcome is that of the committed part; when building the receipt then raises is `Guarantees.ConfirmationPrintsIffServed`. The same holds of `UseCases.Deps.SellUnreserved`, its replay included, and `UseCases.Deps.VerifyTicket`.
- UseCases.Deps.SearchTrains: takes the trips running on the day, in departure order; parsing the date, the booking-window check and the selection by date are not modelled.
- Timetable strings and calendar arithmetic, config loading and seeding: library calls.
- Floating point and the 28-digit decimal context: amounts are exact rationals.
- The heap and the sort of the standard library: the heap is a list kept in order, the sort an insertion sort that keeps the entries and orders them.
- Randomness of the UUID generators: a generator is any function from the number of earlier draws to a name.
- A clock that is set backwards: the clock of a run never goes back.
- Quoting a fare, the ticket's named-passenger check and money formatting: single expressions.
