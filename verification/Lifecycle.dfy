/** What happens to one booking over a whole run. */
module Lifecycle {
  import opened Outcomes
  import opened Records
  import opened Bookings
  import opened Support
  import opened Transactions
  import opened Invariants

  lemma AdvancesIsTransitive(a: Hold, b: Hold, c: Hold)
    requires Advances(a, b) && Advances(b, c)
    ensures Advances(a, c)
  {
    if a.status != b.status && b.status != c.status {
      TransitionsOnlyClimb(a.status, b.status);
      TransitionsOnlyClimb(b.status, c.status);
      assert a.status == Held && b.status == Confirmed && c.status == Cancelled by {
        assert !Terminal(b.status);
        assert b.status == Confirmed || b.status == Cancelled || b.status == Expired;
        assert c.status == Cancelled || c.status == Expired;
        var e :| Apply(b.status, e) == Ok(c.status);
        var f :| Apply(a.status, f) == Ok(b.status);
      }
      assert Apply(Held, Cancel) == Ok(Cancelled);
    }
  }

  /** Every booking of the earlier table is still there, in its place, possibly further along. */
  ghost predicate Later(a: seq<Hold>, b: seq<Hold>) {
    |a| <= |b| && forall i :: 0 <= i < |a| ==> Advances(a[i], b[i])
  }

  lemma LaterIsTransitive(first: seq<Hold>, middle: seq<Hold>, last: seq<Hold>)
    requires Later(first, middle) && Later(middle, last)
    ensures Later(first, last)
  {
    forall i | 0 <= i < |first| ensures Advances(first[i], last[i]) {
      AdvancesIsTransitive(first[i], middle[i], last[i]);
    }
  }

  lemma MoveGoesLater(c: Context, w: World, w': World)
    requires Moves(c, w, w')
    ensures Later(w.holds, w'.holds)
  {
    ExpiryIsProgress(w.holds, w.clock);
    if !Quiet(w, w') {
      var h :| Inserts(c, w, w', h);
      var due := ExpireDue(w.holds, w.clock);
      forall i | 0 <= i < |w.holds| ensures Advances(w.holds[i], w'.holds[i]) {
        assert w'.holds[i] == due[i] && Advances(w.holds[i], due[i]);
      }
    }
  }

  lemma StepGoesLater(c: Context, w: World, command: Command)
    requires WellFormed(c) && Sound(c, w)
    ensures Later(w.holds, Step(c, w, command).holds)
  {
    StepMoves(c, w, command);
    MoveGoesLater(c, w, Step(c, w, command));
  }

  // ---- chains of tables --------------------------------------------------------------------------

  ghost predicate Chain(tables: seq<seq<Hold>>) {
    forall k :: 0 <= k < |tables| - 1 ==> Later(tables[k], tables[k + 1])
  }

  lemma {:induction false} ChainIsLater(tables: seq<seq<Hold>>, j: nat, k: nat)
    requires Chain(tables) && j <= k < |tables|
    ensures Later(tables[j], tables[k])
    decreases k
  {
    if j == k {
      assert forall h: Hold :: Advances(h, h);
    } else {
      ChainIsLater(tables, j, k - 1);
      assert Later(tables[k - 1], tables[k - 1 + 1]);
      LaterIsTransitive(tables[j], tables[k - 1], tables[k]);
    }
  }

  /** How many of the chain's steps up to the k-th, starting at the j-th, change the i-th
      booking's status. */
  ghost function StatusChanges(tables: seq<seq<Hold>>, j: nat, k: nat, i: nat): nat
    requires Chain(tables) && j <= k < |tables| && i < |tables[j]|
    decreases k
  {
    if j == k then
      0
    else
      ChainIsLater(tables, j, k - 1);
      ChainIsLater(tables, j, k);
      StatusChanges(tables, j, k - 1, i) + if tables[k - 1][i].status != tables[k][i].status then 1 else 0
  }

  lemma {:induction false} ChangesClimb(tables: seq<seq<Hold>>, j: nat, k: nat, i: nat)
    requires Chain(tables) && j <= k < |tables| && i < |tables[j]|
    ensures i < |tables[k]|
    ensures StatusChanges(tables, j, k, i) <= Rank(tables[k][i].status) - Rank(tables[j][i].status)
    decreases k
  {
    ChainIsLater(tables, j, k);
    if j < k {
      ChangesClimb(tables, j, k - 1, i);
      assert Later(tables[k - 1], tables[k - 1 + 1]);
      assert Advances(tables[k - 1][i], tables[k][i]);
      TransitionsOnlyClimb(tables[k - 1][i].status, tables[k][i].status);
    }
  }

  // ---- the tables of a run -------------------------------------------------------------------------

  /** The table before the run and after each of its transactions. */
  ghost function History(c: Context, clock: int, commands: seq<Command>): (tables: seq<seq<Hold>>)
    ensures |tables| == |commands| + 1
    ensures forall k :: 0 <= k <= |commands| ==> tables[k] == Run(c, clock, commands[..k]).holds
  {
    seq(|commands| + 1, k requires 0 <= k <= |commands| => Run(c, clock, commands[..k]).holds)
  }

  lemma HistoryIsChain(c: Context, clock: int, commands: seq<Command>)
    requires WellFormed(c)
    ensures Chain(History(c, clock, commands))
  {
    var tables := History(c, clock, commands);
    forall k | 0 <= k < |commands| ensures Later(tables[k], tables[k + 1]) {
      assert commands[..k + 1][..k] == commands[..k];
      RunsAreSound(c, clock, commands[..k]);
      StepGoesLater(c, Run(c, clock, commands[..k]), commands[k]);
    }
  }

  /** Over any run a booking keeps its id, reference, trip, seat, leg, passenger, class, fare
      and times, and its status only ever follows the status machine; a cancelled or expired
      booking is never touched again. */
  lemma BookingsOnlyAdvance(c: Context, clock: int, commands: seq<Command>, j: nat, k: nat)
    requires WellFormed(c) && j <= k <= |commands|
    ensures var earlier, later := Run(c, clock, commands[..j]).holds, Run(c, clock, commands[..k]).holds;
            && Later(earlier, later)
            && forall i :: 0 <= i < |earlier| && Terminal(earlier[i].status) ==> later[i] == earlier[i]
  {
    HistoryIsChain(c, clock, commands);
    var tables := History(c, clock, commands);
    ChainIsLater(tables, j, k);
    forall i | 0 <= i < |tables[j]| && Terminal(tables[j][i].status) ensures tables[k][i] == tables[j][i] {
      assert Advances(tables[j][i], tables[k][i]);
      TransitionsOnlyClimb(tables[j][i].status, tables[k][i].status);
    }
  }

  /** The same, from a run to any continuation of it. */
  lemma ContinuationsOnlyAdvance(c: Context, clock: int, commands: seq<Command>, more: seq<Command>)
    requires WellFormed(c)
    ensures Later(Run(c, clock, commands).holds, Run(c, clock, commands + more).holds)
  {
    var all := commands + more;
    assert all[..|commands|] == commands && all[..|all|] == all;
    BookingsOnlyAdvance(c, clock, all, |commands|, |all|);
  }

  /** A booking's status changes at most twice in its life, and at most once after payment. */
  lemma AtMostTwoChanges(c: Context, clock: int, commands: seq<Command>, j: nat, k: nat, i: nat)
    requires WellFormed(c) && j <= k <= |commands| && i < |History(c, clock, commands)[j]|
    ensures Chain(History(c, clock, commands))
    ensures StatusChanges(History(c, clock, commands), j, k, i) <= 2
    ensures PaidFor(History(c, clock, commands)[j][i].status) ==>
              StatusChanges(History(c, clock, commands), j, k, i) <= 1
  {
    HistoryIsChain(c, clock, commands);
    ChangesClimb(History(c, clock, commands), j, k, i);
  }

  /** A payment that goes through, in any reachable state, is for a stored hold strictly before
      its deadline, and moves that booking alone (overdue holds expire alongside). */
  lemma ConfirmOnlyBeforeDeadline(c: Context, clock: int, commands: seq<Command>, id: string, accepted: bool)
    returns (at: nat)
    requires WellFormed(c)
    requires ConfirmBooking(c, Run(c, clock, commands), id, accepted).1.Ok?
    ensures var w, w' := Run(c, clock, commands), ConfirmBooking(c, Run(c, clock, commands), id, accepted).0;
            && accepted && at < |w.holds|
            && w.holds[at].id == id && w.holds[at].status == Held && w.clock < w.holds[at].heldUntil
            && (forall i :: 0 <= i < |w.holds| && w.holds[i].id == id ==> i == at)
            && w'.holds == WithStatus(ExpireDue(w.holds, w.clock), at, Confirmed)
            && w'.charges == w.charges + [Charge(w.holds[at].reference, w.holds[at].fare, true)]
  {
    RunsAreSound(c, clock, commands);
    at := ConfirmShape(c, Run(c, clock, commands), id, accepted);
  }
}
