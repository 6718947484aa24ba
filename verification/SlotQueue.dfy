/**
 The heavy-slot lock: keepers queue with ticket files and take one of `n` kernel locks, crashing at will.

 A keeper moves in the steps of its loop; steps of different keepers interleave freely.  Assumed of the
 kernel: `flock` gives a lock to one process at a time and frees it when the process dies, a process knows
 whether another is alive, process ids are not reused, and a directory listing is the directory of one moment.
 Two history variables serve the statements only: `created` logs the tickets in the order of their creation,
 and `saw` is how much of that log a keeper's last directory listing covers.
 */
module SlotQueue {
  import Text
  import Order

  type Pid = nat

  /** A ticket's file name: the keeper's start time in microseconds and its pid. */
  datatype Ticket = Ticket(time: nat, pid: Pid)

  /** The order of the file names: equal-width times first, then the pids as text. */
  predicate Before(a: Ticket, b: Ticket) {
    a.time < b.time || (a.time == b.time && Order.Lex(Order.CharLess, Text.Decimal(a.pid), Text.Decimal(b.pid)))
  }

  lemma TicketsAreOrdered()
    ensures Order.StrictTotal(Before)
  {
    assert Order.StrictTotal(Order.CharLess);
    forall a
      ensures !Before(a, a)
    {
      Order.LexIrreflexive(Order.CharLess, Text.Decimal(a.pid));
    }
    forall a, b, c | Before(a, b) && Before(b, c)
      ensures Before(a, c)
    {
      if a.time == b.time == c.time {
        Order.LexTransitive(Order.CharLess, Text.Decimal(a.pid), Text.Decimal(b.pid), Text.Decimal(c.pid));
      }
    }
    forall a: Ticket, b: Ticket | a != b
      ensures Before(a, b) || Before(b, a)
    {
      if a.time == b.time {
        if Text.Decimal(a.pid) == Text.Decimal(b.pid) {
          Text.DecimalInjective(a.pid, b.pid);
        }
        Order.LexConnected(Order.CharLess, Text.Decimal(a.pid), Text.Decimal(b.pid));
      }
    }
  }

  /** Earlier tickets first; at the same microsecond the texts of the pids decide. */
  lemma BeforeMeans(a: Ticket, b: Ticket)
    ensures Before(a, b)
       <==> a.time < b.time
            || (a.time == b.time && Order.EarlierText(Text.Decimal(a.pid), Text.Decimal(b.pid)))
  {
    hide Order.Lex, Order.EarlierText, Text.Decimal;
    Order.TextOrder(Text.Decimal(a.pid), Text.Decimal(b.pid));
  }

  // ---------------------------------------------------------------------------------------------
  // The protocol
  // ---------------------------------------------------------------------------------------------

  /** Where a keeper stands in its loop. */
  datatype Pc =
    | Named                                            // knows its ticket name, has not created the file
    | Queued                                           // about to list the queue directory
    | Scanning(todo: seq<Ticket>, live: seq<Ticket>)   // checking the listed tickets one by one
    | Trying(slot: nat)                                // first in line, about to try this slot's lock
    | Resting                                          // no luck in this round
    | Acquired(slot: nat)                              // has the lock, its ticket is still there
    | Held(slot: nat)                                  // has the lock, ticket removed
    | Left                                             // gave up and removed its ticket
    | Dead

  datatype Keeper = Keeper(ticket: Ticket, pc: Pc, saw: nat)

  datatype State = State(
    keepers: map<Pid, Keeper>,
    queue: set<Ticket>,
    locks: map<nat, Pid>,
    created: seq<Pid>)

  const INITIAL := State(map[], {}, map[], [])

  datatype Step =
    | Start(p: Pid, time: nat)
    | Create(p: Pid)
    | Snapshot(p: Pid, listing: seq<Ticket>)
    | Check(p: Pid)
    | Decide(p: Pid)
    | TryLock(p: Pid)
    | Unlink(p: Pid)
    | Again(p: Pid)
    | Exit(p: Pid)
    | Die(p: Pid)

  ghost predicate Sorted(ts: seq<Ticket>) {
    forall i, j :: 0 <= i < j < |ts| ==> Before(ts[i], ts[j])
  }

  /** The directory listing, sorted by name. */
  ghost predicate IsListing(ts: seq<Ticket>, queue: set<Ticket>) {
    Sorted(ts) && forall t :: t in ts <==> t in queue
  }

  lemma {:induction false} ListingExists(queue: set<Ticket>) returns (ts: seq<Ticket>)
    ensures IsListing(ts, queue)
  {
    if queue == {} {
      ts := [];
    } else {
      var last := NewestOf(queue);
      var front := ListingExists(queue - {last});
      ts := front + [last];
    }
  }

  lemma {:induction false} NewestOf(queue: set<Ticket>) returns (last: Ticket)
    requires queue != {}
    ensures last in queue && forall t :: t in queue && t != last ==> Before(t, last)
  {
    var t :| t in queue;
    if queue == {t} {
      last := t;
    } else {
      TicketsAreOrdered();
      assert queue - {t} != {};
      last := NewestOf(queue - {t});
      if Before(last, t) {
        last := t;
      }
    }
  }

  predicate Alive(s: State, p: Pid) {
    p in s.keepers && s.keepers[p].pc != Dead
  }

  ghost predicate Enabled(s: State, step: Step) {
    if step.Start? then step.p !in s.keepers
    else
      && Alive(s, step.p)
      && var k := s.keepers[step.p];
         match step
         case Create(_) => k.pc == Named
         case Snapshot(_, listing) => k.pc == Queued && IsListing(listing, s.queue)
         case Check(_) => k.pc.Scanning? && k.pc.todo != []
         case Decide(_) => k.pc.Scanning? && k.pc.todo == []
         case TryLock(_) => k.pc.Trying?
         case Unlink(_) => k.pc.Acquired?
         case Again(_) => k.pc == Resting
         case Exit(_) => k.pc == Resting || k.pc == Queued
         case Die(_) => true
  }

  /** Nothing is excluded: who may start, create, look, go on, give up, and that any live keeper may die at any time. */
  lemma EnabledMeans(s: State, p: Pid)
    ensures (forall time :: Enabled(s, Start(p, time)) <==> p !in s.keepers)
    ensures p in s.keepers && s.keepers[p].pc != Dead ==>
              var pc := s.keepers[p].pc;
              && Enabled(s, Die(p))
              && (Enabled(s, Create(p)) <==> pc == Named)
              && (forall ts :: Enabled(s, Snapshot(p, ts))
                    <==> pc == Queued && (forall t :: t in ts <==> t in s.queue)
                         && forall i, j :: 0 <= i < j < |ts| ==> Before(ts[i], ts[j]))
              && (Enabled(s, Check(p)) <==> pc.Scanning? && pc.todo != [])
              && (Enabled(s, Decide(p)) <==> pc.Scanning? && pc.todo == [])
              && (Enabled(s, TryLock(p)) <==> pc.Trying?)
              && (Enabled(s, Unlink(p)) <==> pc.Acquired?)
              && (Enabled(s, Again(p)) <==> pc == Resting)
              && (Enabled(s, Exit(p)) <==> pc == Resting || pc == Queued)
  {
    hide Before;
  }

  function With(s: State, p: Pid, pc: Pc): State
    requires p in s.keepers
  {
    s.(keepers := s.keepers[p := s.keepers[p].(pc := pc)])
  }

  function Freed(locks: map<nat, Pid>, p: Pid): map<nat, Pid> {
    map k | k in locks && locks[k] != p :: locks[k]
  }

  /** Every move of a keeper, and its death; `n` is the number of slots. */
  ghost function Do(n: nat, s: State, step: Step): State
    requires Enabled(s, step)
  {
    var p := step.p;
    match step
    case Start(_, time) => s.(keepers := s.keepers[p := Keeper(Ticket(time, p), Named, 0)])
    case Create(_) => With(s, p, Queued).(queue := s.queue + {s.keepers[p].ticket}, created := s.created + [p])
    case Snapshot(_, listing) =>
      s.(keepers := s.keepers[p := Keeper(s.keepers[p].ticket, Scanning(listing, []), |s.created|)])
    case Check(_) =>
      var pc := s.keepers[p].pc;
      var t := pc.todo[0];
      if Alive(s, t.pid) then With(s, p, Scanning(pc.todo[1..], pc.live + [t]))
      else With(s, p, Scanning(pc.todo[1..], pc.live)).(queue := s.queue - {t})
    case Decide(_) =>
      var k := s.keepers[p];
      With(s, p, if k.pc.live != [] && k.pc.live[0] == k.ticket && n > 0 then Trying(0) else Resting)
    case TryLock(_) =>
      var slot := s.keepers[p].pc.slot;
      if slot !in s.locks then With(s, p, Acquired(slot)).(locks := s.locks[slot := p])
      else if slot + 1 < n then With(s, p, Trying(slot + 1))
      else With(s, p, Resting)
    case Unlink(_) => With(s, p, Held(s.keepers[p].pc.slot)).(queue := s.queue - {s.keepers[p].ticket})
    case Again(_) => With(s, p, Queued)
    case Exit(_) => With(s, p, Left).(queue := s.queue - {s.keepers[p].ticket})
    case Die(_) => With(s, p, Dead).(locks := Freed(s.locks, p))
  }

  /** A run from `s`. */
  ghost predicate CanRun(n: nat, s: State, steps: seq<Step>)
    decreases |steps|
  {
    steps == [] || (Enabled(s, steps[0]) && CanRun(n, Do(n, s, steps[0]), steps[1..]))
  }

  ghost function After(n: nat, s: State, steps: seq<Step>): State
    requires CanRun(n, s, steps)
    decreases |steps|
  {
    if steps == [] then s else After(n, Do(n, s, steps[0]), steps[1..])
  }

  // ---------------------------------------------------------------------------------------------
  // The invariant
  // ---------------------------------------------------------------------------------------------

  /** A live keeper with a ticket and no lock. */
  ghost predicate Waits(s: State, p: Pid) {
    p in s.keepers
    && (var pc := s.keepers[p].pc; pc.Queued? || pc.Scanning? || pc.Trying? || pc.Resting?)
  }

  predicate HasLock(pc: Pc) {
    pc.Acquired? || pc.Held?
  }

  ghost predicate Known(s: State, t: Ticket) {
    t.pid in s.keepers && s.keepers[t.pid].ticket == t
  }

  /** The keeper has created its ticket and not removed it. */
  predicate HasTicket(pc: Pc) {
    !pc.Named? && !pc.Held? && !pc.Left?
  }

  ghost predicate TicketIsFiled(s: State, p: Pid) {
    p in s.keepers ==>
      && s.keepers[p].ticket.pid == p
      && (Waits(s, p) || s.keepers[p].pc.Acquired? ==> s.keepers[p].ticket in s.queue)
  }

  ghost predicate TicketHasKeeper(s: State, t: Ticket) {
    t in s.queue ==> Known(s, t) && HasTicket(s.keepers[t.pid].pc)
  }

  /** Tickets name their keepers, and exactly the keepers that have one are in the queue, or have died in it. */
  ghost predicate TicketsMatch(s: State) {
    (forall p :: TicketIsFiled(s, p)) && (forall t :: TicketHasKeeper(s, t))
  }

  ghost predicate LockHasHolder(n: nat, s: State, k: nat) {
    k in s.locks ==>
      k < n && s.locks[k] in s.keepers && HasLock(s.keepers[s.locks[k]].pc) && s.keepers[s.locks[k]].pc.slot == k
  }

  ghost predicate HolderHasLock(n: nat, s: State, p: Pid) {
    p in s.keepers ==>
      && (HasLock(s.keepers[p].pc) ==> s.keepers[p].pc.slot in s.locks && s.locks[s.keepers[p].pc.slot] == p)
      && (s.keepers[p].pc.Trying? ==> s.keepers[p].pc.slot < n)
  }

  /** A lock and its holder agree. */
  ghost predicate LocksMatch(n: nat, s: State) {
    (forall k :: LockHasHolder(n, s, k)) && (forall p :: HolderHasLock(n, s, p))
  }

  /** The creation log has every waiting keeper, and no keeper that has not created its ticket. */
  ghost predicate LogMatches(s: State) {
    && (forall p :: p in s.created ==> p in s.keepers && s.keepers[p].pc != Named)
    && (forall p :: Waits(s, p) ==> p in s.created)
    && (forall p :: p in s.keepers ==> s.keepers[p].saw <= |s.created|)
  }

  /** A keeper that has listed the queue had created its own ticket before. */
  ghost predicate SawItself(s: State, p: Pid) {
    p in s.keepers && (s.keepers[p].pc.Scanning? || s.keepers[p].pc.Trying?) ==>
      s.keepers[p].saw <= |s.created| && p in s.created[..s.keepers[p].saw]
  }

  /** `q` had created its ticket when `p` last listed the queue. */
  ghost predicate Saw(s: State, p: Pid, q: Pid)
    requires p in s.keepers && s.keepers[p].saw <= |s.created|
  {
    q in s.created[..s.keepers[p].saw]
  }

  /** What a scanning keeper has yet to check, after what it found alive. */
  ghost function Listed(s: State, p: Pid): seq<Ticket>
    requires p in s.keepers && s.keepers[p].pc.Scanning?
  {
    s.keepers[p].pc.live + s.keepers[p].pc.todo
  }

  ghost predicate ListsAreSorted(s: State) {
    forall p :: p in s.keepers && s.keepers[p].pc.Scanning? ==>
      Sorted(Listed(s, p)) && forall t :: t in Listed(s, p) ==> Known(s, t)
  }

  /** A scanning keeper has not lost a waiter it saw. */
  ghost predicate ListsAreComplete(s: State)
    requires LogMatches(s)
  {
    forall p, q :: p in s.keepers && s.keepers[p].pc.Scanning? && Waits(s, q) && Saw(s, p, q) ==>
      s.keepers[q].ticket in Listed(s, p)
  }

  /** A keeper first in line has no older waiter among those it saw. */
  ghost predicate FirstInLine(s: State)
    requires LogMatches(s)
  {
    forall p, q :: p in s.keepers && s.keepers[p].pc.Trying? && Waits(s, q) && Saw(s, p, q) ==>
      !Before(s.keepers[q].ticket, s.keepers[p].ticket)
  }

  ghost predicate Inv(n: nat, s: State) {
    && TicketsMatch(s)
    && LocksMatch(n, s)
    && LogMatches(s)
    && (forall p :: SawItself(s, p))
    && ListsAreSorted(s)
    && ListsAreComplete(s)
    && FirstInLine(s)
  }

  /** Nobody but the stepping keeper changes, and no ticket does. */
  lemma OthersKeep(n: nat, s: State, step: Step)
    requires Enabled(s, step)
    ensures var s' := Do(n, s, step);
            && (forall q :: q in s'.keepers <==> q in s.keepers || q == step.p)
            && (forall q :: q in s.keepers && q != step.p ==> s'.keepers[q] == s.keepers[q])
            && (forall q :: q in s.keepers ==> s'.keepers[q].ticket == s.keepers[q].ticket)
            && s'.created == s.created + (if step.Create? then [step.p] else [])
            && (forall q :: q in s.keepers ==>
                  s'.keepers[q].saw == if step.Snapshot? && q == step.p then |s.created| else s.keepers[q].saw)
            && (step.Start? ==> s'.keepers[step.p] == Keeper(Ticket(step.time, step.p), Named, 0))
            && (s'.keepers[step.p].pc == Named ==> step.Start?)
            && (step.Create? ==> s.keepers[step.p].pc == Named)
            && (forall q :: Waits(s', q) && !Waits(s, q) ==> step == Create(q))
  {
  }

  lemma TicketsMatchStep(n: nat, s: State, step: Step)
    requires TicketsMatch(s) && ListsAreSorted(s) && Enabled(s, step)
    ensures TicketsMatch(Do(n, s, step))
  {
    hide Sorted, Freed, Before, IsListing;
    OthersKeep(n, s, step);
    var s', p := Do(n, s, step), step.p;
    assert TicketIsFiled(s, p);
    if step.Check? {
      assert s.keepers[p].pc.todo[0] in Listed(s, p);
    }
    forall q
      ensures TicketIsFiled(s', q)
    {
      assert TicketIsFiled(s, q);
    }
    forall t
      ensures TicketHasKeeper(s', t)
    {
      assert TicketHasKeeper(s, t);
    }
  }

  lemma LocksMatchStep(n: nat, s: State, step: Step)
    requires LocksMatch(n, s) && Enabled(s, step)
    ensures LocksMatch(n, Do(n, s, step))
  {
    hide IsListing, Waits;
    OthersKeep(n, s, step);
    var s', p := Do(n, s, step), step.p;
    assert HolderHasLock(n, s, p);
    forall k: nat
      ensures LockHasHolder(n, s', k)
    {
      assert LockHasHolder(n, s, k);
    }
    forall q
      ensures HolderHasLock(n, s', q)
    {
      assert HolderHasLock(n, s, q);
      if step.TryLock? {
        assert LockHasHolder(n, s, s.keepers[p].pc.slot);
      }
    }
  }

  lemma LogMatchesStep(n: nat, s: State, step: Step)
    requires LogMatches(s) && Enabled(s, step)
    ensures LogMatches(Do(n, s, step))
  {
    OthersKeep(n, s, step);
    hide Do, Enabled, Waits;
  }

  lemma RemovingKeepsOrder(ts: seq<Ticket>, i: nat)
    requires Sorted(ts) && i < |ts|
    ensures Sorted(ts[..i] + ts[i + 1..])
    ensures forall t :: t in ts[..i] + ts[i + 1..] ==> t in ts
  {
  }

  lemma ListsAreSortedStep(n: nat, s: State, step: Step)
    requires TicketsMatch(s) && ListsAreSorted(s) && Enabled(s, step)
    ensures ListsAreSorted(Do(n, s, step))
  {
    hide TicketsMatch;
    OthersKeep(n, s, step);
    var s', p := Do(n, s, step), step.p;
    if s'.keepers[p].pc.Scanning? {
      ListIsSortedStep(n, s, step);
    }
    forall q | q in s'.keepers && s'.keepers[q].pc.Scanning?
      ensures Sorted(Listed(s', q)) && forall t :: t in Listed(s', q) ==> Known(s', t)
    {
      if q != p {
        assert Listed(s', q) == Listed(s, q);
      }
    }
  }

  lemma ListIsSortedStep(n: nat, s: State, step: Step)
    requires TicketsMatch(s) && ListsAreSorted(s) && Enabled(s, step) && Do(n, s, step).keepers[step.p].pc.Scanning?
    ensures var s' := Do(n, s, step);
            Sorted(Listed(s', step.p)) && forall t :: t in Listed(s', step.p) ==> Known(s', t)
  {
    hide Before, Sorted;
    OthersKeep(n, s, step);
    var s', p := Do(n, s, step), step.p;
    if step.Check? {
      var todo, live := s.keepers[p].pc.todo, s.keepers[p].pc.live;
      if Alive(s, todo[0].pid) {
        assert Listed(s', p) == live + todo;
      } else {
        var list := live + todo;
        RemovingKeepsOrder(list, |live|);
        assert list[..|live|] == live && list[|live| + 1..] == todo[1..];
        assert Listed(s', p) == list[..|live|] + list[|live| + 1..];
        assert Sorted(Listed(s', p));
        forall t | t in Listed(s', p)
          ensures Known(s', t)
        {
          assert t in list;
          assert t in Listed(s, p);
          assert Known(s, t);
        }
      }
    } else {
      assert step.Snapshot? && Listed(s', p) == step.listing;
      forall t | t in Listed(s', p)
        ensures Known(s', t)
      {
        assert TicketHasKeeper(s, t);
      }
    }
  }

  lemma ListsAreCompleteStep(n: nat, s: State, step: Step)
    requires TicketsMatch(s) && LogMatches(s) && ListsAreComplete(s) && Enabled(s, step)
    ensures LogMatches(Do(n, s, step)) && ListsAreComplete(Do(n, s, step))
  {
    LogMatchesStep(n, s, step);
    OthersKeep(n, s, step);
    var s' := Do(n, s, step);
    forall p, q | p in s'.keepers && s'.keepers[p].pc.Scanning? && Waits(s', q) && Saw(s', p, q)
      ensures s'.keepers[q].ticket in Listed(s', p)
    {
      ListIsCompleteStep(n, s, step, p, q);
    }
  }

  lemma ListIsCompleteStep(n: nat, s: State, step: Step, p: Pid, q: Pid)
    requires TicketsMatch(s) && LogMatches(s) && ListsAreComplete(s) && Enabled(s, step)
    requires var s' := Do(n, s, step);
             LogMatches(s') && p in s'.keepers && s'.keepers[p].pc.Scanning? && Waits(s', q) && Saw(s', p, q)
    ensures Do(n, s, step).keepers[q].ticket in Listed(Do(n, s, step), p)
  {
    hide Before, Sorted, Freed;
    OthersKeep(n, s, step);
    var s' := Do(n, s, step);
    assert TicketIsFiled(s, q);
    if step.Snapshot? && step.p == p {
      assert q in s.created && Waits(s, q);
    } else {
      assert s'.keepers[p].saw == s.keepers[p].saw;
      assert Saw(s, p, q) && Waits(s, q);
      assert s.keepers[q].ticket in Listed(s, p);
      if step.Check? && step.p == p {
        var todo, live := s.keepers[p].pc.todo, s.keepers[p].pc.live;
        assert live + todo == live + [todo[0]] + todo[1..];
      }
    }
  }

  lemma FirstInLineStep(n: nat, s: State, step: Step)
    requires LogMatches(s) && ListsAreSorted(s) && ListsAreComplete(s) && FirstInLine(s) && Enabled(s, step)
    ensures LogMatches(Do(n, s, step)) && FirstInLine(Do(n, s, step))
  {
    LogMatchesStep(n, s, step);
    OthersKeep(n, s, step);
    TicketsAreOrdered();
    hide Order.Lex, Text.Decimal, Freed, IsListing;
    var s' := Do(n, s, step);
    forall p, q | p in s'.keepers && s'.keepers[p].pc.Trying? && Waits(s', q) && Saw(s', p, q)
      ensures !Before(s'.keepers[q].ticket, s'.keepers[p].ticket)
    {
      assert Saw(s, p, q) && Waits(s, q);
      if step.Decide? && step.p == p {
        var live := s.keepers[p].pc.live;
        assert Listed(s, p) == live;
        var i :| 0 <= i < |live| && live[i] == s.keepers[q].ticket;
        assert i > 0 ==> Before(live[0], live[i]);
      }
    }
  }

  lemma SawItselfStep(n: nat, s: State, step: Step, p: Pid)
    requires LogMatches(s) && SawItself(s, p) && Enabled(s, step)
    ensures SawItself(Do(n, s, step), p)
  {
    OthersKeep(n, s, step);
    hide Before, Freed, IsListing;
    var s' := Do(n, s, step);
    if p in s.keepers && s.keepers[p].saw <= |s.created| {
      assert s'.created[..s.keepers[p].saw] == s.created[..s.keepers[p].saw];
    }
    if step.Snapshot? && step.p == p {
      assert s'.created[..|s'.created|] == s'.created;
    }
  }

  lemma InvStep(n: nat, s: State, step: Step)
    requires Inv(n, s) && Enabled(s, step)
    ensures Inv(n, Do(n, s, step))
  {
    hide TicketsMatch, LocksMatch, LogMatches, SawItself, ListsAreSorted, ListsAreComplete, FirstInLine;
    forall p: Pid
      ensures SawItself(Do(n, s, step), p)
    {
      SawItselfStep(n, s, step, p);
    }
    TicketsMatchStep(n, s, step);
    LocksMatchStep(n, s, step);
    ListsAreSortedStep(n, s, step);
    ListsAreCompleteStep(n, s, step);
    FirstInLineStep(n, s, step);
  }

  lemma {:induction false} InvAlways(n: nat, s: State, steps: seq<Step>)
    requires Inv(n, s) && CanRun(n, s, steps)
    ensures Inv(n, After(n, s, steps))
    decreases |steps|
  {
    hide Inv;
    if steps != [] {
      InvStep(n, s, steps[0]);
      InvAlways(n, Do(n, s, steps[0]), steps[1..]);
    }
  }

  lemma InvInitially(n: nat)
    ensures Inv(n, INITIAL)
  {
  }

  // ---------------------------------------------------------------------------------------------
  // At most n holders, one per slot
  // ---------------------------------------------------------------------------------------------

  ghost function Holders(s: State): set<Pid> {
    set p | p in s.keepers && HasLock(s.keepers[p].pc)
  }

  lemma {:induction false} InjectionBound(ps: set<Pid>, slots: map<Pid, nat>, n: nat)
    requires ps <= slots.Keys
    requires forall p :: p in ps ==> slots[p] < n
    requires forall p, q :: p in ps && q in ps && p != q ==> slots[p] != slots[q]
    ensures |ps| <= n
  {
    if n == 0 {
      assert ps == {};
    } else if p :| p in ps && slots[p] == n - 1 {
      InjectionBound(ps - {p}, slots, n - 1);
    } else {
      InjectionBound(ps, slots, n - 1);
    }
  }

  /** Whatever the keepers do and wherever they crash, there are at most `n` holders, each with a slot of its own. */
  lemma HoldersBound(n: nat, steps: seq<Step>)
    requires CanRun(n, INITIAL, steps)
    ensures var s := After(n, INITIAL, steps);
            && |Holders(s)| <= n
            && (forall p :: p in Holders(s) ==> s.keepers[p].pc.slot < n)
            && (forall p, q :: p in Holders(s) && q in Holders(s) && p != q ==>
                  s.keepers[p].pc.slot != s.keepers[q].pc.slot)
  {
    InvInitially(n);
    InvAlways(n, INITIAL, steps);
    var s := After(n, INITIAL, steps);
    var slots: map<Pid, nat> := map p | p in Holders(s) :: s.keepers[p].pc.slot;
    forall p | p in Holders(s)
      ensures slots[p] < n && slots[p] in s.locks && s.locks[slots[p]] == p
    {
      assert HolderHasLock(n, s, p) && LockHasHolder(n, s, slots[p]);
    }
    InjectionBound(Holders(s), slots, n);
  }

  // ---------------------------------------------------------------------------------------------
  // First come, first served
  // ---------------------------------------------------------------------------------------------

  /** The step gives `p` a slot. */
  ghost predicate Takes(s: State, step: Step, p: Pid) {
    step == TryLock(p) && Enabled(s, step) && s.keepers[p].pc.slot !in s.locks
  }

  /** A waiter with an older ticket. */
  ghost predicate OlderWaiter(s: State, p: Pid, q: Pid) {
    p in s.keepers && Waits(s, q) && Before(s.keepers[q].ticket, s.keepers[p].ticket)
  }

  /** The only older waiters a keeper can overtake are those that created their tickets after it last looked. */
  lemma OvertakesOnlyLateTickets(n: nat, s: State, p: Pid, q: Pid)
    requires Inv(n, s) && Takes(s, TryLock(p), p) && OlderWaiter(s, p, q)
    ensures q !in s.created[..s.keepers[p].saw]
  {
  }

  /** Tickets have been created in the order of their names. */
  ghost predicate CreatedInOrder(s: State) {
    forall i, j :: 0 <= i < j < |s.created| ==>
      && s.created[i] in s.keepers && s.created[j] in s.keepers
      && Before(s.keepers[s.created[i]].ticket, s.keepers[s.created[j]].ticket)
  }

  lemma ServedInOrder(n: nat, s: State, p: Pid, q: Pid)
    requires Inv(n, s) && CreatedInOrder(s) && Takes(s, TryLock(p), p)
    ensures !OlderWaiter(s, p, q)
  {
    assert SawItself(s, p);
    if OlderWaiter(s, p, q) {
      OlderWasSeen(s, p, q, s.keepers[p].saw);
      OvertakesOnlyLateTickets(n, s, p, q);
    }
  }

  /** With tickets created in order, no keeper takes a slot while an older live ticket waits. */
  lemma FirstComeFirstServed(n: nat, steps: seq<Step>, p: Pid, q: Pid)
    requires CanRun(n, INITIAL, steps)
    requires CreatedInOrder(After(n, INITIAL, steps))
    requires Takes(After(n, INITIAL, steps), TryLock(p), p)
    ensures !OlderWaiter(After(n, INITIAL, steps), p, q)
  {
    InvInitially(n);
    InvAlways(n, INITIAL, steps);
    ServedInOrder(n, After(n, INITIAL, steps), p, q);
  }

  lemma OlderWasSeen(s: State, p: Pid, q: Pid, saw: nat)
    requires CreatedInOrder(s) && saw <= |s.created| && p in s.created[..saw] && q in s.created
    requires p in s.keepers && q in s.keepers && Before(s.keepers[q].ticket, s.keepers[p].ticket)
    ensures q in s.created[..saw]
  {
    TicketsAreOrdered();
    var i :| 0 <= i < saw && s.created[..saw][i] == p;
    var j :| 0 <= j < |s.created| && s.created[j] == q;
    assert s.created[i] == p;
    assert j < saw ==> s.created[..saw][j] == q;
  }

  ghost function Predecessors(s: State, p: Pid): set<Pid> {
    set q | q in s.keepers && OlderWaiter(s, p, q)
  }

  lemma NewestTicket(s: State, p: Pid, q: Pid)
    requires |s.created| > 0 && s.created[|s.created| - 1] == q && p in s.created[..|s.created| - 1]
    requires CreatedInOrder(s)
    ensures p in s.keepers && q in s.keepers && !Before(s.keepers[q].ticket, s.keepers[p].ticket)
  {
    TicketsAreOrdered();
    var i :| 0 <= i < |s.created| - 1 && s.created[..|s.created| - 1][i] == p;
    assert s.created[i] == p;
  }

  lemma PredecessorsStep(n: nat, s: State, step: Step, p: Pid)
    requires Inv(n, s) && Enabled(s, step) && Waits(s, p) && CreatedInOrder(Do(n, s, step))
    ensures Predecessors(Do(n, s, step), p) <= Predecessors(s, p)
  {
    hide Before, Do;
    OthersKeep(n, s, step);
    TicketsAreOrdered();
    var s' := Do(n, s, step);
    forall q | q in Predecessors(s', p)
      ensures q in Predecessors(s, p)
    {
      if step == Create(q) {
        assert s'.created[..|s.created|] == s.created;
        NewestTicket(s', p, q);
      }
    }
  }

  ghost predicate WaitsThroughout(n: nat, s: State, steps: seq<Step>, p: Pid)
    requires CanRun(n, s, steps)
    decreases |steps|
  {
    Waits(s, p) && (steps == [] || WaitsThroughout(n, Do(n, s, steps[0]), steps[1..], p))
  }

  lemma {:induction false} LogGrows(n: nat, s: State, steps: seq<Step>)
    requires CanRun(n, s, steps)
    ensures s.created <= After(n, s, steps).created
    ensures forall p :: p in s.keepers ==>
              p in After(n, s, steps).keepers && After(n, s, steps).keepers[p].ticket == s.keepers[p].ticket
    decreases |steps|
  {
    hide Enabled, Do;
    if steps != [] {
      OthersKeep(n, s, steps[0]);
      LogGrows(n, Do(n, s, steps[0]), steps[1..]);
    }
  }

  /** With tickets created in order, the line before a waiter only gets shorter, whoever comes, goes or dies. */
  lemma {:induction false} PredecessorsNeverGrow(n: nat, s: State, steps: seq<Step>, p: Pid)
    requires Inv(n, s) && CanRun(n, s, steps) && WaitsThroughout(n, s, steps, p)
    requires CreatedInOrder(After(n, s, steps))
    ensures Predecessors(After(n, s, steps), p) <= Predecessors(s, p)
    decreases |steps|
  {
    hide Inv, Do, Enabled;
    if steps != [] {
      var next := Do(n, s, steps[0]);
      InvStep(n, s, steps[0]);
      LogGrows(n, next, steps[1..]);
      assert CreatedInOrder(next) by { EarlierInOrder(n, next, After(n, s, steps)); }
      PredecessorsStep(n, s, steps[0], p);
      PredecessorsNeverGrow(n, next, steps[1..], p);
    }
  }

  lemma EarlierInOrder(n: nat, s: State, later: State)
    requires Inv(n, s) && CreatedInOrder(later) && s.created <= later.created
    requires forall p :: p in s.keepers ==> p in later.keepers && later.keepers[p].ticket == s.keepers[p].ticket
    ensures CreatedInOrder(s)
  {
    forall i, j | 0 <= i < j < |s.created|
      ensures s.created[i] in s.keepers && s.created[j] in s.keepers
      ensures Before(s.keepers[s.created[i]].ticket, s.keepers[s.created[j]].ticket)
    {
      assert later.created[i] == s.created[i] && later.created[j] == s.created[j];
      assert s.created[i] in s.created && s.created[j] in s.created;
    }
  }
}
