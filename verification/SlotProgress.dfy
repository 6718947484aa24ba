/**
 A free slot is never out of reach of the oldest waiter: it can always take one, and it does within a bounded
 number of its own steps, whatever the other keepers do meanwhile.
 */
module SlotProgress {
  import Order
  import Text
  import opened SlotQueue

  // ---------------------------------------------------------------------------------------------
  // A free slot is never out of reach
  // ---------------------------------------------------------------------------------------------

  /** A step of the loop of `p`, or a holder removing its ticket. */
  predicate Helps(step: Step, p: Pid) {
    step.Unlink? || (step.p == p && !step.Die? && !step.Exit?)
  }

  /** At most `moves` such steps give `p` a lock. */
  ghost predicate CanAcquire(n: nat, s: State, p: Pid, moves: nat)
    decreases moves
  {
    p in s.keepers
    && (s.keepers[p].pc.Acquired?
        || (moves > 0
            && exists step :: Helps(step, p) && Enabled(s, step) && CanAcquire(n, Do(n, s, step), p, moves - 1)))
  }

  lemma Move(n: nat, s: State, step: Step, p: Pid, moves: nat)
    requires p in s.keepers && Helps(step, p) && Enabled(s, step) && CanAcquire(n, Do(n, s, step), p, moves)
    ensures CanAcquire(n, s, p, moves + 1)
  {
  }

  /** No live keeper has an older ticket in the queue. */
  ghost predicate OldestTicket(s: State, p: Pid) {
    Waits(s, p)
    && forall q :: Alive(s, q) && q != p && s.keepers[q].ticket in s.queue ==>
         Before(s.keepers[p].ticket, s.keepers[q].ticket)
  }

  ghost predicate Free(n: nat, s: State, slot: nat) {
    slot < n && slot !in s.locks
  }

  /** As long as it gets no lock, a keeper's own steps leave it the oldest and the free slot free. */
  lemma StaysOldest(n: nat, s: State, step: Step, p: Pid, slot: nat)
    requires OldestTicket(s, p) && Free(n, s, slot) && step.p == p && Helps(step, p) && Enabled(s, step)
    requires Waits(Do(n, s, step), p)
    ensures OldestTicket(Do(n, s, step), p) && Free(n, Do(n, s, step), slot)
  {
    hide Before, IsListing;
    OthersKeep(n, s, step);
  }

  lemma {:induction false} TryUpwards(n: nat, s: State, p: Pid, slot: nat) returns (moves: nat)
    requires Alive(s, p) && s.keepers[p].pc.Trying? && s.keepers[p].pc.slot <= slot && Free(n, s, slot)
    ensures CanAcquire(n, s, p, moves)
    decreases slot - s.keepers[p].pc.slot
  {
    var next := Do(n, s, TryLock(p));
    if s.keepers[p].pc.slot in s.locks {
      moves := TryUpwards(n, next, p, slot);
    } else {
      moves := 0;
      assert CanAcquire(n, next, p, 0);
    }
    Move(n, s, TryLock(p), p, moves);
    moves := moves + 1;
  }

  /** The scan can only end with the keeper first in line. */
  ghost predicate Heads(s: State, p: Pid) {
    && Alive(s, p) && s.keepers[p].ticket.pid == p && s.keepers[p].pc.Scanning?
    && var Scanning(todo, live) := s.keepers[p].pc;
       var mine := s.keepers[p].ticket;
       if live != [] then live[0] == mine
       else
         && mine in todo && Sorted(todo)
         && forall t :: t in todo && t != mine && Alive(s, t.pid) ==> Before(mine, t)
  }

  lemma HeadsStep(n: nat, s: State, p: Pid)
    requires Heads(s, p) && s.keepers[p].pc.todo != []
    ensures Heads(Do(n, s, Check(p)), p)
  {
    OthersKeep(n, s, Check(p));
    TicketsAreOrdered();
    hide Order.Lex, Text.Decimal;
    var Scanning(todo, live) := s.keepers[p].pc;
    var mine := s.keepers[p].ticket;
    if live == [] {
      var i :| 0 <= i < |todo| && todo[i] == mine;
      assert i > 0 ==> Before(todo[0], mine) && todo[1..][i - 1] == mine;
    }
  }

  lemma {:induction false} FinishScan(n: nat, s: State, p: Pid, slot: nat) returns (moves: nat)
    requires Heads(s, p) && Free(n, s, slot)
    ensures CanAcquire(n, s, p, moves)
    decreases |s.keepers[p].pc.todo|
  {
    hide Before, CanAcquire;
    var step := if s.keepers[p].pc.todo == [] then Decide(p) else Check(p);
    var next := Do(n, s, step);
    if step.Check? {
      HeadsStep(n, s, p);
      moves := FinishScan(n, next, p, slot);
    } else {
      moves := TryUpwards(n, next, p, slot);
    }
    Move(n, s, step, p, moves);
    moves := moves + 1;
  }

  lemma SnapshotStarts(n: nat, s: State, listing: seq<Ticket>, p: Pid)
    requires Inv(n, s) && OldestTicket(s, p) && Enabled(s, Snapshot(p, listing))
    ensures Heads(Do(n, s, Snapshot(p, listing)), p)
  {
    hide Before;
    var next := Do(n, s, Snapshot(p, listing));
    OthersKeep(n, s, Snapshot(p, listing));
    assert TicketIsFiled(s, p);
    forall t | t in listing && t != s.keepers[p].ticket && Alive(next, t.pid)
      ensures Before(s.keepers[p].ticket, t)
    {
      assert TicketHasKeeper(s, t);
    }
  }

  lemma FromQueued(n: nat, s: State, p: Pid, slot: nat) returns (moves: nat)
    requires Inv(n, s) && OldestTicket(s, p) && s.keepers[p].pc == Queued && Free(n, s, slot)
    ensures CanAcquire(n, s, p, moves)
  {
    hide Before, CanAcquire, Inv;
    var listing := ListingExists(s.queue);
    SnapshotStarts(n, s, listing, p);
    moves := FinishScan(n, Do(n, s, Snapshot(p, listing)), p, slot);
    Move(n, s, Snapshot(p, listing), p, moves);
    moves := moves + 1;
  }

  /** Steps of the loop that are still to come before the next listing. */
  ghost function Remaining(n: nat, s: State, p: Pid): nat
    requires Waits(s, p)
  {
    match s.keepers[p].pc
    case Queued => 0
    case Resting => 1
    case Trying(slot) => 2 + (if slot < n then n - slot else 0)
    case Scanning(todo, _) => 3 + n + |todo|
    case _ => 0
  }

  /** The step that a waiting keeper's loop makes next, when it is not about to list the queue. */
  ghost function NextStep(s: State, p: Pid): Step
    requires Waits(s, p)
  {
    match s.keepers[p].pc
    case Resting => Again(p)
    case Trying(_) => TryLock(p)
    case Scanning(todo, _) => if todo == [] then Decide(p) else Check(p)
    case _ => Again(p)
  }

  lemma LoopProceeds(n: nat, s: State, p: Pid)
    requires Waits(s, p) && s.keepers[p].pc != Queued
    ensures var step := NextStep(s, p);
            && Enabled(s, step)
            && (var next := Do(n, s, step);
                p in next.keepers
                && (next.keepers[p].pc.Acquired? || (Waits(next, p) && Remaining(n, next, p) < Remaining(n, s, p))))
  {
    hide Before;
  }

  /** The keeper with the oldest ticket can take a free slot by its own steps alone, wherever in its loop it stands. */
  lemma {:induction false} OldestTicketCanTake(n: nat, s: State, p: Pid, slot: nat) returns (moves: nat)
    requires Inv(n, s) && OldestTicket(s, p) && Free(n, s, slot)
    ensures CanAcquire(n, s, p, moves)
    decreases Remaining(n, s, p)
  {
    hide Inv, Do, Before, CanAcquire;
    if s.keepers[p].pc == Queued {
      moves := FromQueued(n, s, p, slot);
    } else {
      LoopProceeds(n, s, p);
      var step := NextStep(s, p);
      var next := Do(n, s, step);
      if next.keepers[p].pc.Acquired? {
        moves := 0;
        HasAcquired(n, next, p);
      } else {
        InvStep(n, s, step);
        StaysOldest(n, s, step, p, slot);
        moves := OldestTicketCanTake(n, next, p, slot);
      }
      Move(n, s, step, p, moves);
      moves := moves + 1;
    }
  }

  lemma HasAcquired(n: nat, s: State, p: Pid)
    requires p in s.keepers && s.keepers[p].pc.Acquired?
    ensures CanAcquire(n, s, p, 0)
  {
  }

  /** Holders that have not removed their tickets yet. */
  ghost function Unfinished(s: State): set<Pid> {
    set q | q in s.keepers && s.keepers[q].pc.Acquired?
  }

  lemma UnlinkStep(n: nat, s: State, p: Pid, q: Pid, slot: nat)
    requires Waits(s, p) && q in Unfinished(s) && Free(n, s, slot)
    ensures Enabled(s, Unlink(q))
    ensures var next := Do(n, s, Unlink(q));
            && Unfinished(next) == Unfinished(s) - {q}
            && Waits(next, p) && Free(n, next, slot)
            && forall r :: OlderWaiter(next, p, r) ==> OlderWaiter(s, p, r)
  {
    hide Before;
  }

  /** A free slot with a live waiter always leaves the oldest waiter able to take one: no keeper need time out, crash or
      arrive, and no lock be released. */
  lemma {:induction false} OldestWaiterCanTake(n: nat, s: State, p: Pid, slot: nat) returns (moves: nat)
    requires Inv(n, s) && Waits(s, p) && Free(n, s, slot)
    requires forall q :: !OlderWaiter(s, p, q)
    ensures CanAcquire(n, s, p, moves)
    decreases |Unfinished(s)|
  {
    hide Inv, Do, CanAcquire;
    if Unfinished(s) == {} {
      NoOlderTicket(n, s, p);
      moves := OldestTicketCanTake(n, s, p, slot);
    } else {
      var q :| q in Unfinished(s);
      UnlinkStep(n, s, p, q, slot);
      InvStep(n, s, Unlink(q));
      moves := OldestWaiterCanTake(n, Do(n, s, Unlink(q)), p, slot);
      Move(n, s, Unlink(q), p, moves);
      moves := moves + 1;
    }
  }

  lemma NoOlderTicket(n: nat, s: State, p: Pid)
    requires Inv(n, s) && Waits(s, p) && Unfinished(s) == {}
    requires forall q :: !OlderWaiter(s, p, q)
    ensures OldestTicket(s, p)
  {
    TicketsAreOrdered();
    hide Order.Lex, Text.Decimal;
    assert TicketIsFiled(s, p);
    forall q | Alive(s, q) && q != p && s.keepers[q].ticket in s.queue
      ensures Before(s.keepers[p].ticket, s.keepers[q].ticket)
    {
      assert TicketIsFiled(s, q) && TicketHasKeeper(s, s.keepers[q].ticket);
      assert q !in Unfinished(s) && !OlderWaiter(s, p, q);
    }
  }

  // ---------------------------------------------------------------------------------------------
  // The oldest waiter takes a free slot
  // ---------------------------------------------------------------------------------------------

  /** As long as it waits, `p` has the oldest ticket and the slot is free; it neither gives up nor dies. */
  ghost predicate OldestThroughout(n: nat, s: State, steps: seq<Step>, p: Pid, slot: nat)
    requires CanRun(n, s, steps)
    decreases |steps|
  {
    && (Waits(s, p) ==> OldestTicket(s, p) && Free(n, s, slot))
    && (steps != [] ==>
          && steps[0] != Exit(p) && steps[0] != Die(p)
          && OldestThroughout(n, Do(n, s, steps[0]), steps[1..], p, slot))
  }

  ghost function OwnSteps(steps: seq<Step>, p: Pid): nat {
    if steps == [] then 0 else (if steps[0].p == p then 1 else 0) + OwnSteps(steps[1..], p)
  }

  /** The round that `p` is in can only end with the slot, or with one before it. */
  ghost predicate OnItsWay(s: State, p: Pid, slot: nat) {
    Heads(s, p) || (p in s.keepers && s.keepers[p].pc.Trying? && s.keepers[p].pc.slot <= slot)
  }

  /** The own steps that `p` can still make without a slot, when no listing is longer than `most`. */
  ghost function Budget(n: nat, s: State, p: Pid, slot: nat, most: nat): nat
    requires Waits(s, p)
  {
    if OnItsWay(s, p, slot) then Remaining(n, s, p) else Remaining(n, s, p) + 4 + n + most
  }

  // A listing is no longer than the creation log.

  lemma {:induction false} ListingSize(ts: seq<Ticket>, pids: set<Pid>)
    requires Sorted(ts) && forall t :: t in ts ==> t.pid in pids
    requires forall t, u :: t in ts && u in ts && t.pid == u.pid ==> t == u
    ensures |ts| <= |pids|
  {
    if ts != [] {
      TicketsAreOrdered();
      hide Before;
      var front, last := ts[..|ts| - 1], ts[|ts| - 1];
      forall t | t in front
        ensures t in ts && t.pid in pids - {last.pid}
      {
        var i :| 0 <= i < |front| && front[i] == t;
        assert ts[i] == t && Before(ts[i], ts[|ts| - 1]);
      }
      ListingSize(front, pids - {last.pid});
    }
  }

  /** Every ticket in the queue has been created. */
  ghost predicate QueueIsLogged(s: State) {
    forall t :: t in s.queue ==> t.pid in s.created
  }

  lemma QueueIsLoggedStep(n: nat, s: State, step: Step)
    requires Inv(n, s) && QueueIsLogged(s) && Enabled(s, step)
    ensures QueueIsLogged(Do(n, s, step))
  {
    hide Before, IsListing;
    assert step.Create? ==> TicketIsFiled(s, step.p);
    assert forall p :: p in s.created ==> p in Do(n, s, step).created;
  }

  ghost function Pids(log: seq<Pid>): set<Pid> {
    set p | p in log
  }

  lemma {:induction false} PidsBound(log: seq<Pid>)
    ensures |Pids(log)| <= |log|
  {
    if log != [] {
      PidsBound(log[1..]);
      assert Pids(log) == Pids(log[1..]) + {log[0]};
    }
  }

  lemma ListingIsShort(n: nat, s: State, listing: seq<Ticket>)
    requires Inv(n, s) && QueueIsLogged(s) && IsListing(listing, s.queue)
    ensures |listing| <= |s.created|
  {
    hide Before;
    forall t | t in listing
      ensures t.pid in Pids(s.created) && Known(s, t)
    {
      assert TicketHasKeeper(s, t);
    }
    ListingSize(listing, Pids(s.created));
    PidsBound(s.created);
  }

  // What a step does to the budget.

  /** A step of another keeper costs `p` nothing. */
  lemma OthersCostNothing(n: nat, s: State, step: Step, p: Pid, slot: nat, most: nat)
    requires Inv(n, s) && Waits(s, p) && Enabled(s, step) && step.p != p
    ensures Waits(Do(n, s, step), p) && Budget(n, Do(n, s, step), p, slot, most) <= Budget(n, s, p, slot, most)
  {
    hide Before, Inv;
    OthersKeep(n, s, step);
    if Heads(s, p) {
      KnownListed(n, s, p);
      hide Do, Enabled;
      var next := Do(n, s, step);
      assert forall q :: q in s.keepers && Alive(next, q) ==> Alive(s, q) by { NoneRevives(n, s, step); }
      assert Heads(next, p);
    }
  }

  lemma KnownListed(n: nat, s: State, p: Pid)
    requires Inv(n, s) && p in s.keepers && s.keepers[p].pc.Scanning?
    ensures forall t :: t in s.keepers[p].pc.todo ==> t.pid in s.keepers
  {
    hide Before;
    forall t | t in s.keepers[p].pc.todo
      ensures t.pid in s.keepers
    {
      assert t in Listed(s, p);
    }
  }

  lemma NoneRevives(n: nat, s: State, step: Step)
    requires Enabled(s, step)
    ensures forall q :: q in s.keepers && Alive(Do(n, s, step), q) ==> Alive(s, q)
  {
    OthersKeep(n, s, step);
    hide Before, IsListing;
  }

  /** A step of its own gives `p` a slot or uses up budget. */
  lemma OwnStepCosts(n: nat, s: State, step: Step, p: Pid, slot: nat, most: nat)
    requires Inv(n, s) && QueueIsLogged(s) && OldestTicket(s, p) && Free(n, s, slot)
    requires Enabled(s, step) && step.p == p && !step.Exit? && !step.Die? && |s.created| <= most
    ensures var next := Do(n, s, step);
            p in next.keepers
            && (next.keepers[p].pc.Acquired?
                || (Waits(next, p) && Budget(n, next, p, slot, most) < Budget(n, s, p, slot, most)))
  {
    if step.Snapshot? {
      SnapshotStarts(n, s, step.listing, p);
      ListingIsShort(n, s, step.listing);
    } else {
      hide Before, Inv, IsListing;
      assert step == NextStep(s, p);
      LoopProceeds(n, s, p);
      if Heads(s, p) && step.Check? {
        HeadsStep(n, s, p);
      }
    }
  }

  // Over a whole run.

  ghost predicate HasSlot(s: State, p: Pid) {
    p in s.keepers && HasLock(s.keepers[p].pc)
  }

  lemma SlotIsKept(n: nat, s: State, step: Step, p: Pid)
    requires HasSlot(s, p) && Enabled(s, step) && step != Die(p)
    ensures HasSlot(Do(n, s, step), p)
  {
    hide Before, IsListing;
  }

  lemma {:induction false} SlotIsKeptThroughout(n: nat, s: State, steps: seq<Step>, p: Pid, slot: nat)
    requires HasSlot(s, p) && CanRun(n, s, steps) && OldestThroughout(n, s, steps, p, slot)
    ensures HasSlot(After(n, s, steps), p)
    decreases |steps|
  {
    hide Do, Enabled, HasSlot;
    if steps != [] {
      SlotIsKept(n, s, steps[0], p);
      SlotIsKeptThroughout(n, Do(n, s, steps[0]), steps[1..], p, slot);
    }
  }

  lemma {:induction false} BudgetBounds(n: nat, s: State, steps: seq<Step>, p: Pid, slot: nat, most: nat)
    requires Inv(n, s) && QueueIsLogged(s) && CanRun(n, s, steps)
    requires Waits(s, p) && OldestThroughout(n, s, steps, p, slot) && |After(n, s, steps).created| <= most
    ensures HasSlot(After(n, s, steps), p) || OwnSteps(steps, p) <= Budget(n, s, p, slot, most)
    decreases |steps|
  {
    hide Inv, Do, Enabled, QueueIsLogged, Budget, HasSlot, OldestTicket, Free;
    if steps != [] {
      var step, rest := steps[0], steps[1..];
      var next := Do(n, s, step);
      InvStep(n, s, step);
      QueueIsLoggedStep(n, s, step);
      LogGrows(n, s, steps);
      if step.p == p {
        assert step.Exit? ==> step == Exit(p);
        assert step.Die? ==> step == Die(p);
        OwnStepCosts(n, s, step, p, slot, most);
      } else {
        OthersCostNothing(n, s, step, p, slot, most);
      }
      if Waits(next, p) {
        BudgetBounds(n, next, rest, p, slot, most);
      } else {
        assert HasSlot(next, p) by { AcquiredHasSlot(next, p); }
        SlotIsKeptThroughout(n, next, rest, p, slot);
      }
    }
  }

  lemma AcquiredHasSlot(s: State, p: Pid)
    requires p in s.keepers && s.keepers[p].pc.Acquired?
    ensures HasSlot(s, p)
  {
  }

  lemma {:induction false} QueueAlwaysLogged(n: nat, s: State, steps: seq<Step>)
    requires Inv(n, s) && QueueIsLogged(s) && CanRun(n, s, steps)
    ensures QueueIsLogged(After(n, s, steps))
    decreases |steps|
  {
    hide Inv, Do, Enabled, QueueIsLogged;
    if steps != [] {
      InvStep(n, s, steps[0]);
      QueueIsLoggedStep(n, s, steps[0]);
      QueueAlwaysLogged(n, Do(n, s, steps[0]), steps[1..]);
    }
  }

  /**
   From any reachable state, whatever the other keepers do: a waiter that stays the oldest while a slot stays
   free has taken a slot once it has made more steps of its own than its budget, which the slots and the tickets
   created bound.
   */
  lemma OldestTakesAFreeSlot(n: nat, past: seq<Step>, steps: seq<Step>, p: Pid, slot: nat)
    requires CanRun(n, INITIAL, past)
    requires var s := After(n, INITIAL, past);
             Waits(s, p) && CanRun(n, s, steps) && OldestThroughout(n, s, steps, p, slot)
    ensures var s := After(n, INITIAL, past);
            var last := After(n, s, steps);
            OwnSteps(steps, p) > Remaining(n, s, p) + 4 + n + |last.created| ==> HasSlot(last, p)
  {
    hide Inv, Do, Enabled, QueueIsLogged, HasSlot, OldestTicket, Free, OnItsWay, OldestThroughout;
    var s := After(n, INITIAL, past);
    InvInitially(n);
    InvAlways(n, INITIAL, past);
    NothingQueued();
    QueueAlwaysLogged(n, INITIAL, past);
    BudgetBounds(n, s, steps, p, slot, |After(n, s, steps).created|);
  }

  lemma NothingQueued()
    ensures QueueIsLogged(INITIAL)
  {
  }

  // ---------------------------------------------------------------------------------------------
  // Tickets of the dead
  // ---------------------------------------------------------------------------------------------

  /** A keeper that is dead, and whose ticket, if it is still there, `p` is about to check. */
  ghost predicate Doomed(s: State, p: Pid, t: Ticket) {
    && t.pid in s.keepers && s.keepers[t.pid].pc == Dead && s.keepers[t.pid].ticket == t
    && p in s.keepers && s.keepers[p].pc != Named
    && (t in s.queue ==> s.keepers[p].pc == Dead || (s.keepers[p].pc.Scanning? && t in s.keepers[p].pc.todo))
  }

  lemma DoomedStep(n: nat, s: State, step: Step, p: Pid, t: Ticket)
    requires TicketsMatch(s) && Doomed(s, p, t) && Enabled(s, step) && !(step.Snapshot? && step.p == p)
    ensures Doomed(Do(n, s, step), p, t)
  {
    OthersKeep(n, s, step);
    assert TicketIsFiled(s, step.p);
    hide Before, IsListing;
    if step == Check(p) {
      var todo := s.keepers[p].pc.todo;
      assert t in todo ==> t == todo[0] || t in todo[1..];
    }
  }

  lemma {:induction false} DoomedThroughout(n: nat, s: State, steps: seq<Step>, p: Pid, t: Ticket)
    requires Inv(n, s) && Doomed(s, p, t) && CanRun(n, s, steps)
    requires forall i :: 0 <= i < |steps| ==> !(steps[i].Snapshot? && steps[i].p == p)
    ensures Doomed(After(n, s, steps), p, t)
    decreases |steps|
  {
    hide Do, Enabled, Doomed;
    if steps != [] {
      assert TicketsMatch(s);
      DoomedStep(n, s, steps[0], p, t);
      InvStep(n, s, steps[0]);
      DoomedThroughout(n, Do(n, s, steps[0]), steps[1..], p, t);
    }
  }

  /**
   A scan cleans up: once a live keeper has checked its whole list, no ticket on it is left whose keeper was dead
   when the list was made, whatever the others did meanwhile.
   */
  lemma ScanCleansUp(n: nat, s: State, listing: seq<Ticket>, steps: seq<Step>, p: Pid, t: Ticket)
    requires Inv(n, s) && Enabled(s, Snapshot(p, listing)) && CanRun(n, Do(n, s, Snapshot(p, listing)), steps)
    requires forall i :: 0 <= i < |steps| ==> !(steps[i].Snapshot? && steps[i].p == p)
    requires t in listing && !Alive(s, t.pid)
    ensures var last := After(n, Do(n, s, Snapshot(p, listing)), steps);
            Alive(last, p) && (last.keepers[p].pc.Scanning? ==> last.keepers[p].pc.todo == []) ==> t !in last.queue
  {
    hide Before;
    assert TicketHasKeeper(s, t);
    var next := Do(n, s, Snapshot(p, listing));
    OthersKeep(n, s, Snapshot(p, listing));
    assert Doomed(next, p, t);
    InvStep(n, s, Snapshot(p, listing));
    DoomedThroughout(n, next, steps, p, t);
  }
}
