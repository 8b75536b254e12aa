/** The booking wizard's cart: a pure step reducer over seats, passengers and the links between
    them, and the walk that resolves a linked passenger's identity. */
module Flow {
  import opened Outcomes
  import opened Sorting

  datatype Step = Landing | Search | Trains | Seats | Passengers | Receipt

  const STEPS := [Landing, Search, Trains, Seats, Passengers, Receipt]

  datatype Passenger = Passenger(name: Option<string>, nic: Option<string>, childOf: Option<string>)

  datatype Ticket = Ticket(seat: string, childOf: Option<string>, reference: string)

  datatype State = State(
    step: Step, journey: Option<string>, train: Option<string>, seatIds: seq<string>,
    passengers: map<string, Passenger>, tickets: seq<Ticket>, error: Option<string>)

  /** The fields a patch sets; `childOf` may be set to no link. */
  datatype Patch = Patch(name: Option<string>, nic: Option<string>, childOf: Option<Option<string>>)

  datatype Action =
    | Start
    | Searched(journey: string)
    | TrainSelected(train: string)
    | SeatToggled(seat: string)
    | SeatsConfirmed
    | PassengerUpdated(seat: string, patch: Patch)
    | Booked(tickets: seq<Ticket>)
    | SeatRemovedConflict(seat: string, message: string)
    | Back
    | ErrorCleared
    | Restart

  const INITIAL := State(Landing, None, None, [], map[], [], None)

  const BLANK := Passenger(Some(""), Some(""), None)

  function StepIndex(s: Step): (i: nat)
    ensures i < |STEPS| && STEPS[i] == s
  {
    match s
    case Landing => 0
    case Search => 1
    case Trains => 2
    case Seats => 3
    case Passengers => 4
    case Receipt => 5
  }

  predicate CanGoBack(f: State) {
    StepIndex(f.step) > 0 && f.step != Receipt
  }

  function Without(seatIds: seq<string>, seat: string): (rest: seq<string>)
    ensures forall s :: s in rest <==> s in seatIds && s != seat
  {
    if seatIds == [] then
      []
    else
      var last := seatIds[|seatIds| - 1];
      assert seatIds == seatIds[..|seatIds| - 1] + [last];
      Without(seatIds[..|seatIds| - 1], seat) + if last == seat then [] else [last]
  }

  function PassengerOf(f: State, seat: string): Passenger {
    if seat in f.passengers then f.passengers[seat] else BLANK
  }

  function Unlinked(p: Passenger, seat: string): Passenger {
    if p.childOf == Some(seat) then p.(childOf := None) else p
  }

  /** Drop a seat, and unlink whoever travels with it. */
  function WithoutSeat(f: State, seat: string): State {
    var rest := Without(f.seatIds, seat);
    f.(seatIds := rest, passengers := map s | s in rest :: Unlinked(PassengerOf(f, s), seat))
  }

  function Patched(f: State, seat: string, patch: Patch): Passenger {
    var p := if seat in f.passengers then f.passengers[seat] else Passenger(None, None, None);
    Passenger(if patch.name.Some? then patch.name else p.name,
              if patch.nic.Some? then patch.nic else p.nic,
              if patch.childOf.Some? then patch.childOf.value else p.childOf)
  }

  function Reduce(f: State, action: Action): State {
    match action
    case Start => INITIAL.(step := Search)
    case Searched(journey) => f.(step := Trains, journey := Some(journey), error := None)
    case TrainSelected(train) =>
      f.(step := Seats, train := Some(train), seatIds := [], passengers := map[], error := None)
    case SeatToggled(seat) =>
      if seat in f.seatIds then WithoutSeat(f, seat).(error := None)
      else f.(seatIds := f.seatIds + [seat], error := None)
    case SeatsConfirmed =>
      f.(step := Passengers, error := None,
         passengers := f.passengers + (map s | s in f.seatIds && s !in f.passengers :: BLANK))
    case PassengerUpdated(seat, patch) => f.(passengers := f.passengers[seat := Patched(f, seat, patch)])
    case Booked(tickets) => f.(step := Receipt, tickets := tickets, error := None)
    case SeatRemovedConflict(seat, message) =>
      var shown := if message == "" then "That seat was just taken." else message;
      WithoutSeat(f, seat).(step := Seats, error := Some(shown))
    case Back => if CanGoBack(f) then f.(step := STEPS[StepIndex(f.step) - 1], error := None) else f
    case ErrorCleared => f.(error := None)
    case Restart => INITIAL
  }

  // ---- the cart's shape -------------------------------------------------------------------------

  function Position(seatIds: seq<string>, seat: string): (at: nat)
    requires seat in seatIds
    ensures at < |seatIds| && seatIds[at] == seat
    ensures forall i :: at < i < |seatIds| ==> seatIds[i] != seat
  {
    if seatIds[|seatIds| - 1] == seat then |seatIds| - 1 else Position(seatIds[..|seatIds| - 1], seat)
  }

  /** Whom a passenger travels with; an empty seat id is no link. */
  function Link(p: Passenger): Option<string> {
    if p.childOf == Some("") then None else p.childOf
  }

  /** Both are in the cart, the first on an earlier row. */
  predicate Before(seatIds: seq<string>, a: string, b: string) {
    a in seatIds && b in seatIds && Position(seatIds, a) < Position(seatIds, b)
  }

  /** Both rows exist in the cart, the parent's strictly above the child's. */
  predicate Above(f: State, parent: string, child: string) {
    parent in f.passengers && Before(f.seatIds, parent, child)
  }

  ghost predicate Tidy(f: State) {
    && Distinct(f.seatIds)
    && (forall s :: s in f.passengers ==> s in f.seatIds)
    && (forall s :: s in f.passengers && Link(f.passengers[s]).Some? ==> Above(f, Link(f.passengers[s]).value, s))
    && (f.step == Passengers ==> forall s :: s in f.seatIds ==> s in f.passengers)
  }

  /** What the wizard's screens can dispatch: seats are added only on the seat map; a row is
      edited only on the passenger step, and links only to the row directly above it. */
  predicate Dispatchable(f: State, action: Action) {
    match action
    case SeatToggled(seat) => f.step == Seats || seat in f.seatIds
    case PassengerUpdated(seat, patch) =>
      && f.step == Passengers
      && seat in f.seatIds
      && (patch.childOf.Some? && patch.childOf.value.Some? ==>
            var i := Position(f.seatIds, seat);
            i > 0 && patch.childOf.value.value == f.seatIds[i - 1])
    case _ => true
  }

  lemma AppendedIsLast(seatIds: seq<string>, last: string)
    requires Distinct(seatIds) && last !in seatIds
    ensures Distinct(seatIds + [last])
    ensures Position(seatIds + [last], last) == |seatIds|
    ensures forall s :: s in seatIds ==> Position(seatIds + [last], s) == Position(seatIds, s)
  {
    var more := seatIds + [last];
    assert more[|more| - 1] == last && more[..|more| - 1] == seatIds;
  }

  lemma {:induction false} DroppingKeepsDistinct(seatIds: seq<string>, seat: string)
    requires Distinct(seatIds)
    ensures Distinct(Without(seatIds, seat))
  {
    if seatIds != [] {
      var before, last := seatIds[..|seatIds| - 1], seatIds[|seatIds| - 1];
      assert seatIds == before + [last];
      DroppingKeepsDistinct(before, seat);
      if last != seat {
        AppendedIsLast(Without(before, seat), last);
      }
    }
  }

  lemma BeforeOfMore(seatIds: seq<string>, last: string, a: string, b: string)
    requires last !in seatIds
    ensures Before(seatIds + [last], a, b) <==> Before(seatIds, a, b) || (a in seatIds && b == last)
  {
    var more := seatIds + [last];
    assert more[|more| - 1] == last && more[..|more| - 1] == seatIds;
    assert forall s :: s in more <==> s in seatIds || s == last;
  }

  lemma {:induction false} DroppingKeepsBefore(seatIds: seq<string>, seat: string, a: string, b: string)
    requires Distinct(seatIds) && a != seat && b != seat && Before(seatIds, a, b)
    ensures Before(Without(seatIds, seat), a, b)
  {
    var before, last := seatIds[..|seatIds| - 1], seatIds[|seatIds| - 1];
    var rest := Without(before, seat);
    assert seatIds == before + [last];
    assert last !in before;
    BeforeOfMore(before, last, a, b);
    if Before(before, a, b) {
      DroppingKeepsBefore(before, seat, a, b);
    }
    BeforeOfMore(rest, last, a, b);
    assert Without(seatIds, seat) == if last == seat then rest else rest + [last];
  }

  lemma DroppingKeepsOrder(seatIds: seq<string>, seat: string)
    requires Distinct(seatIds)
    ensures Distinct(Without(seatIds, seat))
    ensures forall a, b :: a != seat && b != seat && Before(seatIds, a, b) ==> Before(Without(seatIds, seat), a, b)
  {
    DroppingKeepsDistinct(seatIds, seat);
    forall a, b | a != seat && b != seat && Before(seatIds, a, b) ensures Before(Without(seatIds, seat), a, b) {
      DroppingKeepsBefore(seatIds, seat, a, b);
    }
  }

  /** Dropping a seat keeps the others in their order, with their passengers as entered except
      that nobody travels with the dropped one any more. */
  lemma DroppingASeatStaysTidy(f: State, seat: string)
    requires Tidy(f)
    ensures Tidy(WithoutSeat(f, seat))
    ensures forall s :: s in WithoutSeat(f, seat).seatIds <==> s in f.seatIds && s != seat
    ensures forall a, b :: a != seat && b != seat && Before(f.seatIds, a, b) ==>
              Before(WithoutSeat(f, seat).seatIds, a, b)
    ensures forall s :: s in f.passengers && s != seat ==>
              && s in WithoutSeat(f, seat).passengers
              && WithoutSeat(f, seat).passengers[s]
                 == if f.passengers[s].childOf == Some(seat) then f.passengers[s].(childOf := None) else f.passengers[s]
    ensures forall s :: s in f.seatIds && s != seat && s !in f.passengers ==>
              && s in WithoutSeat(f, seat).passengers
              && WithoutSeat(f, seat).passengers[s] == Passenger(Some(""), Some(""), None)
    ensures forall s :: s in WithoutSeat(f, seat).seatIds ==> s in WithoutSeat(f, seat).passengers
  {
    var g := WithoutSeat(f, seat);
    DroppingKeepsOrder(f.seatIds, seat);
    forall s | s in g.passengers && Link(g.passengers[s]).Some? ensures Above(g, Link(g.passengers[s]).value, s) {
      assert s in f.passengers && Link(f.passengers[s]) == Link(g.passengers[s]);
      assert Above(f, Link(f.passengers[s]).value, s);
    }
  }

  lemma AddingASeatStaysTidy(f: State, seat: string)
    requires Tidy(f) && seat !in f.seatIds && f.step != Passengers
    ensures Tidy(f.(seatIds := f.seatIds + [seat], error := None))
  {
    var g := f.(seatIds := f.seatIds + [seat], error := None);
    AppendedIsLast(f.seatIds, seat);
    forall s | s in g.passengers && Link(g.passengers[s]).Some? ensures Above(g, Link(g.passengers[s]).value, s) {
      assert Above(f, Link(f.passengers[s]).value, s);
    }
  }

  /** The link a patch sets, if it sets one. */
  function PatchedLink(patch: Patch): Option<string> {
    if patch.childOf.None? || patch.childOf.value == Some("") then None else patch.childOf.value
  }

  /** An edit keeps the cart tidy exactly when it is to a row of the cart, and any link it sets
      names a stored passenger on a row above. */
  lemma EditStaysTidyIff(f: State, seat: string, patch: Patch)
    requires Tidy(f)
    ensures Tidy(Reduce(f, PassengerUpdated(seat, patch))) <==>
              seat in f.seatIds && (PatchedLink(patch).Some? ==> Above(f, PatchedLink(patch).value, seat))
  {
    var g := Reduce(f, PassengerUpdated(seat, patch));
    assert seat in g.passengers;
    if PatchedLink(patch).Some? {
      assert Link(g.passengers[seat]) == PatchedLink(patch);
    }
    if seat in f.seatIds && (PatchedLink(patch).Some? ==> Above(f, PatchedLink(patch).value, seat)) {
      forall s | s in g.passengers && Link(g.passengers[s]).Some? ensures Above(g, Link(g.passengers[s]).value, s) {
        if s != seat || patch.childOf.None? {
          assert Above(f, Link(f.passengers[s]).value, s);
        }
      }
    }
  }

  lemma ConfirmingStaysTidy(f: State)
    requires Tidy(f)
    ensures Tidy(Reduce(f, SeatsConfirmed))
  {
    var g := Reduce(f, SeatsConfirmed);
    forall s | s in g.passengers && Link(g.passengers[s]).Some? ensures Above(g, Link(g.passengers[s]).value, s) {
      assert s in f.passengers && Above(f, Link(f.passengers[s]).value, s);
    }
  }

  lemma LeavingStaysTidy(f: State, g: State)
    requires Tidy(f) && g.seatIds == f.seatIds && g.passengers == f.passengers
    requires g.step == Passengers ==> f.step == Passengers
    ensures Tidy(g)
  {
    forall s | s in g.passengers && Link(g.passengers[s]).Some? ensures Above(g, Link(g.passengers[s]).value, s) {
      assert Above(f, Link(f.passengers[s]).value, s);
    }
  }

  /** What an action must be to keep a tidy cart tidy. */
  predicate Harmless(f: State, action: Action) {
    match action
    case SeatToggled(seat) => seat in f.seatIds || f.step != Passengers
    case PassengerUpdated(seat, patch) =>
      seat in f.seatIds && (PatchedLink(patch).Some? ==> Above(f, PatchedLink(patch).value, seat))
    case _ => true
  }

  /** For every action of the reducer, exactly when it keeps the cart tidy: only adding a seat on
      the passenger step, editing a row that is not in the cart, and linking to anything but a
      stored passenger above can spoil it. */
  lemma StaysTidyIff(f: State, action: Action)
    requires Tidy(f)
    ensures Tidy(Reduce(f, action)) <==> Harmless(f, action)
  {
    match action
    case SeatToggled(seat) =>
      if seat in f.seatIds {
        DroppingASeatStaysTidy(f, seat);
        LeavingStaysTidy(WithoutSeat(f, seat), Reduce(f, action));
      } else if f.step != Passengers {
        AddingASeatStaysTidy(f, seat);
      } else {
        assert seat in Reduce(f, action).seatIds && seat !in f.passengers;
      }
    case SeatRemovedConflict(seat, _) =>
      DroppingASeatStaysTidy(f, seat);
      LeavingStaysTidy(WithoutSeat(f, seat), Reduce(f, action));
    case PassengerUpdated(seat, patch) => EditStaysTidyIff(f, seat, patch);
    case SeatsConfirmed => ConfirmingStaysTidy(f);
    case Start =>
    case Restart =>
    case TrainSelected(_) =>
    case _ => LeavingStaysTidy(f, Reduce(f, action));
  }

  lemma DispatchStaysTidy(f: State, action: Action)
    requires Tidy(f) && Dispatchable(f, action)
    ensures Tidy(Reduce(f, action))
  {
    if action.PassengerUpdated? && PatchedLink(action.patch).Some? {
      var i := Position(f.seatIds, action.seat);
      assert Position(f.seatIds, f.seatIds[i - 1]) == i - 1;
    }
    StaysTidyIff(f, action);
  }

  function After(actions: seq<Action>): State {
    if actions == [] then INITIAL else Reduce(After(actions[..|actions| - 1]), actions[|actions| - 1])
  }

  ghost predicate Session(actions: seq<Action>) {
    actions == []
    || (Session(actions[..|actions| - 1]) && Dispatchable(After(actions[..|actions| - 1]), actions[|actions| - 1]))
  }

  /** Throughout any session, cart seats are distinct and every link points to a row above. */
  lemma {:induction false} SessionsStayTidy(actions: seq<Action>)
    requires Session(actions)
    ensures Tidy(After(actions))
  {
    if actions != [] {
      SessionsStayTidy(actions[..|actions| - 1]);
      DispatchStaysTidy(After(actions[..|actions| - 1]), actions[|actions| - 1]);
    }
  }

  // ---- what the actions do to the cart ------------------------------------------------------------

  lemma WithoutAbsent(seatIds: seq<string>, seat: string)
    requires seat !in seatIds
    ensures Without(seatIds, seat) == seatIds && Without(seatIds + [seat], seat) == seatIds
  {
    assert (seatIds + [seat])[..|seatIds|] == seatIds;
    if seatIds != [] {
      var before, last := seatIds[..|seatIds| - 1], seatIds[|seatIds| - 1];
      assert seatIds == before + [last];
      WithoutAbsent(before, seat);
    }
  }

  /** Picking a seat puts it last in the cart, and picking it again takes it out: the cart is as
      before, and neither leaves the screen nor an error behind. */
  lemma ToggleTwiceRestores(f: State, seat: string)
    requires seat !in f.seatIds
    ensures var picked := Reduce(f, SeatToggled(seat));
            var dropped := Reduce(picked, SeatToggled(seat));
            && picked == f.(seatIds := f.seatIds + [seat], error := None)
            && dropped.seatIds == f.seatIds && dropped.step == f.step && dropped.error == None
            && (forall s :: s in f.seatIds && s in f.passengers && f.passengers[s].childOf != Some(seat) ==>
                  s in dropped.passengers && dropped.passengers[s] == f.passengers[s])
  {
    WithoutAbsent(f.seatIds, seat);
  }

  /** An edit changes one row, and there just the fields it sets. */
  lemma EditMerges(f: State, seat: string, patch: Patch)
    ensures var g := Reduce(f, PassengerUpdated(seat, patch));
            && g == f.(passengers := g.passengers)
            && g.passengers.Keys == f.passengers.Keys + {seat}
            && (forall s :: s in f.passengers && s != seat ==> g.passengers[s] == f.passengers[s])
            && (patch.name.Some? ==> g.passengers[seat].name == patch.name)
            && (patch.nic.Some? ==> g.passengers[seat].nic == patch.nic)
            && (patch.childOf.Some? ==> g.passengers[seat].childOf == patch.childOf.value)
            && (seat in f.passengers ==>
                  && (patch.name.None? ==> g.passengers[seat].name == f.passengers[seat].name)
                  && (patch.nic.None? ==> g.passengers[seat].nic == f.passengers[seat].nic)
                  && (patch.childOf.None? ==> g.passengers[seat].childOf == f.passengers[seat].childOf))
  {
  }

  /** Going on to the passenger step gives every seat a row, blank unless one was entered. */
  lemma ConfirmingSeedsRows(f: State)
    ensures var g := Reduce(f, SeatsConfirmed);
            && g.step == Passengers && g.seatIds == f.seatIds
            && g.passengers.Keys == f.passengers.Keys + set s | s in f.seatIds
            && forall s :: s in g.passengers ==>
                 g.passengers[s] == if s in f.passengers then f.passengers[s] else Passenger(Some(""), Some(""), None)
  {
  }

  /** The action by which the wizard goes forward from a step. */
  predicate GoesForward(f: State, action: Action) {
    match f.step
    case Landing => action == Start
    case Search => action.Searched?
    case Trains => action.TrainSelected?
    case Seats => action == SeatsConfirmed
    case Passengers => action.Booked?
    case Receipt => false
  }

  /** Back undoes a step forward, except that nothing goes back once tickets are booked; and it
      goes back from every other step but the first. */
  lemma BackUndoesForward(f: State, action: Action)
    requires GoesForward(f, action)
    ensures var g := Reduce(f, action);
            && g.step != f.step && g.error == None
            && (action.Booked? ==> g.tickets == action.tickets && Reduce(g, Back) == g)
            && (!action.Booked? ==> Reduce(g, Back) == g.(step := f.step))
            && (CanGoBack(f) <==> f.step != Landing && f.step != Receipt)
            && (action.Searched? ==> g == f.(step := Trains, journey := Some(action.journey), error := None))
            && (action.TrainSelected? ==> g.train == Some(action.train) && g.seatIds == [] && g.passengers == map[])
  {
  }

  /** Starting and restarting forget everything, wherever the wizard was; clearing the error
      forgets nothing else. */
  lemma StartForgets(f: State)
    ensures Reduce(f, Start) == State(Search, None, None, [], map[], [], None)
    ensures Reduce(f, Restart) == State(Landing, None, None, [], map[], [], None)
    ensures Reduce(f, ErrorCleared).error == None && Reduce(f, ErrorCleared).(error := f.error) == f
  {
  }

  /** A seat lost to somebody else leaves the cart with a message, and the wizard on the seat map. */
  lemma ConflictReturnsToSeats(f: State, seat: string, message: string)
    ensures var g := Reduce(f, SeatRemovedConflict(seat, message));
            && seat !in g.seatIds && g.step == Seats && g.error.Some? && g.error.value != ""
            && (message != "" ==> g.error == Some(message))
  {
  }

  lemma SessionOneMore(actions: seq<Action>, action: Action)
    requires Session(actions) && Dispatchable(After(actions), action)
    ensures Session(actions + [action]) && After(actions + [action]) == Reduce(After(actions), action)
  {
    assert (actions + [action])[..|actions|] == actions;
  }

  /** A session that picks one train, then one seat, and goes on to the passenger step. */
  const ON_SEAT_MAP := [Start] + [TrainSelected("T")]

  const ONE_SEAT := ON_SEAT_MAP + [SeatToggled("A")] + [SeatsConfirmed]

  lemma SeatMapIsReached()
    ensures Session(ON_SEAT_MAP) && After(ON_SEAT_MAP) == State(Seats, None, Some("T"), [], map[], [], None)
  {
    SessionOneMore([], Start);
    assert [] + [Start] == [Start];
    SessionOneMore([Start], TrainSelected("T"));
  }

  lemma OneSeatIsReached()
    ensures Session(ONE_SEAT)
    ensures After(ONE_SEAT) == State(Passengers, None, Some("T"), ["A"], map["A" := BLANK], [], None)
  {
    SeatMapIsReached();
    SeatIsPicked(ON_SEAT_MAP, "A");
    SeatIsConfirmed(ON_SEAT_MAP + [SeatToggled("A")], "A");
  }

  lemma SeatIsPicked(actions: seq<Action>, seat: string)
    requires Session(actions) && After(actions).step == Seats && After(actions).seatIds == []
    ensures Session(actions + [SeatToggled(seat)])
    ensures After(actions + [SeatToggled(seat)]) == After(actions).(seatIds := [seat], error := None)
  {
    SessionOneMore(actions, SeatToggled(seat));
    assert [] + [seat] == [seat];
  }

  lemma SeatIsConfirmed(actions: seq<Action>, seat: string)
    requires Session(actions) && After(actions).seatIds == [seat] && After(actions).passengers == map[]
    ensures Session(actions + [SeatsConfirmed])
    ensures After(actions + [SeatsConfirmed])
            == After(actions).(step := Passengers, passengers := map[seat := BLANK], error := None)
  {
    SessionOneMore(actions, SeatsConfirmed);
    assert Reduce(After(actions), SeatsConfirmed).passengers == map[seat := BLANK];
  }

  /** The reducer alone does not keep the cart tidy: after a session of what the screens offer,
      a row linked to itself, which no screen offers, is stored as it is. */
  lemma SelfLinkIsNotTidy()
    ensures var f, loop := After(ONE_SEAT), PassengerUpdated("A", Patch(None, None, Some(Some("A"))));
            && Session(ONE_SEAT) && Tidy(f) && !Dispatchable(f, loop)
            && "A" in Reduce(f, loop).passengers && Link(Reduce(f, loop).passengers["A"]) == Some("A")
            && !Tidy(Reduce(f, loop))
  {
    OneSeatIsReached();
    SessionsStayTidy(ONE_SEAT);
    StaysTidyIff(After(ONE_SEAT), PassengerUpdated("A", Patch(None, None, Some(Some("A")))));
  }

  // ---- resolving the identity of a linked passenger ----------------------------------------------

  /** The unlinked passenger at the top of a seat's chain. */
  ghost function ChainTop(f: State, seat: string): (top: string)
    requires Tidy(f) && seat in f.passengers
    ensures top in f.passengers && Link(f.passengers[top]).None?
    ensures Position(f.seatIds, top) <= Position(f.seatIds, seat)
    decreases Position(f.seatIds, seat)
  {
    var link := Link(f.passengers[seat]);
    if link.None? then
      seat
    else
      assert Above(f, link.value, seat);
      ChainTop(f, link.value)
  }

  /** White space and line ends, as String.prototype.trim removes them. */
  predicate IsSpace(c: char) {
    || '\t' <= c <= '\r' || c == ' ' || c == '\U{a0}' || c == '\U{1680}'
    || c == '\U{2028}' || c == '\U{2029}' || c == '\U{202f}' || c == '\U{205f}' || c == '\U{3000}' || c == '\U{feff}'
    || '\U{2000}' <= c <= '\U{200a}'
  }

  function TrimStart(s: string, space: char -> bool): string {
    if s != "" && space(s[0]) then TrimStart(s[1..], space) else s
  }

  function TrimEnd(s: string, space: char -> bool): string {
    if s != "" && space(s[|s| - 1]) then TrimEnd(s[..|s| - 1], space) else s
  }

  /** The whole is the text with white space before and after it. */
  ghost predicate Padded(whole: string, before: string, text: string, after: string, space: char -> bool) {
    && whole == before + text + after
    && (forall k :: 0 <= k < |before| ==> space(before[k]))
    && (forall k :: 0 <= k < |after| ==> space(after[k]))
  }

  /** The text is what is left of the whole when white space is taken off both its ends. */
  ghost predicate IsTrimmed(text: string, whole: string, space: char -> bool) {
    && (exists before, after :: Padded(whole, before, text, after, space))
    && (text != "" ==> !space(text[0]) && !space(text[|text| - 1]))
  }

  lemma {:induction false} StartIsSpace(s: string, space: char -> bool) returns (before: string)
    ensures s == before + TrimStart(s, space) && forall k :: 0 <= k < |before| ==> space(before[k])
    ensures TrimStart(s, space) != "" ==> !space(TrimStart(s, space)[0])
  {
    before := "";
    if s != "" && space(s[0]) {
      var rest := StartIsSpace(s[1..], space);
      before := [s[0]] + rest;
      Rejoined([s[0]], rest, TrimStart(s[1..], space));
      assert s == [s[0]] + s[1..];
    }
  }

  lemma {:induction false} EndIsSpace(s: string, space: char -> bool) returns (after: string)
    ensures s == TrimEnd(s, space) + after && forall k :: 0 <= k < |after| ==> space(after[k])
    ensures TrimEnd(s, space) != "" ==> !space(TrimEnd(s, space)[|TrimEnd(s, space)| - 1])
  {
    after := "";
    if s != "" && space(s[|s| - 1]) {
      var rest := EndIsSpace(s[..|s| - 1], space);
      after := rest + [s[|s| - 1]];
      Rejoined(TrimEnd(s[..|s| - 1], space), rest, [s[|s| - 1]]);
      assert s == s[..|s| - 1] + [s[|s| - 1]];
    }
  }

  lemma Rejoined(a: string, b: string, c: string)
    ensures (a + b) + c == a + (b + c)
  {
  }

  lemma Rejoin(s: string, before: string, t: string, text: string, after: string)
    requires s == before + t && t == text + after
    ensures s == before + text + after && (text != "" ==> t != "" && t[0] == text[0])
  {
  }

  lemma TrimmedBothEnds(s: string, space: char -> bool)
    ensures IsTrimmed(TrimEnd(TrimStart(s, space), space), s, space)
  {
    var t := TrimStart(s, space);
    var before := StartIsSpace(s, space);
    var after := EndIsSpace(t, space);
    Rejoin(s, before, t, TrimEnd(t, space), after);
    assert Padded(s, before, TrimEnd(t, space), after, space);
  }

  /** The passenger's identity number without surrounding white space, or nothing. */
  function NicOf(p: Option<Passenger>): string {
    if p.Some? && p.value.nic.Some? then TrimEnd(TrimStart(p.value.nic.value, IsSpace), IsSpace) else ""
  }

  function Find(f: State, seat: string): Option<Passenger> {
    if seat in f.passengers then Some(f.passengers[seat]) else None
  }

  /** Walks up the links with a bounded number of steps. In a tidy cart the bound never cuts
      the walk short: it ends at the top of the chain with steps to spare. */
  method ResolveNic(f: State, seat: string) returns (nic: string, spare: int)
    requires Tidy(f)
    ensures seat in f.passengers ==> nic == NicOf(Some(f.passengers[ChainTop(f, seat)]))
    ensures seat !in f.passengers ==> nic == ""
    ensures seat in f.passengers && f.passengers[ChainTop(f, seat)].nic.Some? ==>
              IsTrimmed(nic, f.passengers[ChainTop(f, seat)].nic.value, IsSpace)
    ensures 0 < spare
  {
    var current := Find(f, seat);
    var guard := |f.seatIds| + 1;
    ghost var at := seat;
    while current.Some? && Link(current.value).Some? && guard > 0
      invariant current == Find(f, at)
      invariant seat in f.passengers ==> at in f.passengers && ChainTop(f, at) == ChainTop(f, seat)
      invariant seat in f.passengers ==> Position(f.seatIds, at) + 1 < guard
      invariant seat !in f.passengers ==> current.None? && guard > 0
      decreases guard
    {
      guard := guard - 1;
      var parent := Link(current.value).value;
      assert Above(f, parent, at);
      current := Find(f, parent);
      at := parent;
    }
    if seat in f.passengers && f.passengers[ChainTop(f, seat)].nic.Some? {
      TrimmedBothEnds(f.passengers[ChainTop(f, seat)].nic.value, IsSpace);
    }
    return NicOf(current), guard;
  }
}
