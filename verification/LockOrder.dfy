/**
 Threads that take numbered locks, with the rule that a thread only takes a lock above all it holds.

 A thread is a program and how much of it has run.  The rule excludes deadlock whatever the interleaving,
 and it cannot be weakened: a program that breaks it deadlocks with some program that keeps it.
 */
module LockOrder {

  datatype Op<E> = Acquire(lock: nat) | Release(lock: nat) | Do(effect: E)

  datatype Thread<E> = Thread(program: seq<Op<E>>, pc: nat)

  /** The locks held after the first `pc` operations. */
  function Holds<E>(program: seq<Op<E>>, pc: nat): set<nat>
    requires pc <= |program|
  {
    if pc == 0 then {}
    else
      match program[pc - 1]
      case Acquire(l) => Holds(program, pc - 1) + {l}
      case Release(l) => Holds(program, pc - 1) - {l}
      case Do(_) => Holds(program, pc - 1)
  }

  ghost predicate Above(l: nat, held: set<nat>) {
    forall h :: h in held ==> h < l
  }

  ghost predicate InOrder<E>(program: seq<Op<E>>, k: nat, locks: nat)
    requires k < |program|
  {
    match program[k]
    case Acquire(l) => l < locks && Above(l, Holds(program, k))
    case Release(l) => l in Holds(program, k)
    case Do(_) => true
  }

  /** Takes locks in ascending order, gives back only what it holds, and everything by the end. */
  ghost predicate Ascending<E>(program: seq<Op<E>>, locks: nat) {
    (forall k :: 0 <= k < |program| ==> InOrder(program, k, locks)) && Holds(program, |program|) == {}
  }

  predicate Started<E>(t: Thread<E>) { t.pc <= |t.program| }

  predicate Done<E>(t: Thread<E>) { t.pc >= |t.program| }

  function Held<E>(t: Thread<E>): set<nat> {
    if Started(t) then Holds(t.program, t.pc) else {}
  }

  ghost predicate Orderly<E>(t: Thread<E>, locks: nat) {
    Started(t) && Ascending(t.program, locks)
  }

  ghost predicate AllOrderly<E>(ts: seq<Thread<E>>, locks: nat) {
    forall i :: 0 <= i < |ts| ==> Orderly(ts[i], locks)
  }

  predicate Free<E>(ts: seq<Thread<E>>, l: nat) {
    forall j :: 0 <= j < |ts| ==> l !in Held(ts[j])
  }

  predicate CanStep<E>(ts: seq<Thread<E>>, i: nat) {
    i < |ts| && !Done(ts[i]) && (var op := ts[i].program[ts[i].pc]; op.Acquire? ==> Free(ts, op.lock))
  }

  /** Thread `i` runs its next operation, or waits. */
  function Attempt<E>(ts: seq<Thread<E>>, i: nat): seq<Thread<E>> {
    if CanStep(ts, i) then ts[i := Thread(ts[i].program, ts[i].pc + 1)] else ts
  }

  function After<E>(ts: seq<Thread<E>>, schedule: seq<nat>): seq<Thread<E>> {
    if schedule == [] then ts
    else Attempt(After(ts, schedule[..|schedule| - 1]), schedule[|schedule| - 1])
  }

  // ---------------------------------------------------------------------------------------------
  // No deadlock
  // ---------------------------------------------------------------------------------------------

  /** From a thread that is not done, up the locks: someone can run. */
  lemma {:induction false} SomeoneCanStep<E>(ts: seq<Thread<E>>, locks: nat, i: nat)
    requires AllOrderly(ts, locks) && i < |ts| && !Done(ts[i])
    ensures exists j :: CanStep(ts, j)
    decreases var op := ts[i].program[ts[i].pc]; if op.Acquire? then locks - op.lock else 0
  {
    hide Holds;
    var t := ts[i];
    assert Orderly(t, locks);
    assert InOrder(t.program, t.pc, locks);
    if !CanStep(ts, i) {
      var l := t.program[t.pc].lock;
      var j :| 0 <= j < |ts| && l in Held(ts[j]);
      var u := ts[j];
      assert Orderly(u, locks);
      assert !Done(u);
      assert InOrder(u.program, u.pc, locks);
      if CanStep(ts, j) {
      } else {
        SomeoneCanStep(ts, locks, j);
      }
    }
  }

  /** Orderly threads never all wait: if no one can run, all are done and no lock is held. */
  lemma NoDeadlock<E>(ts: seq<Thread<E>>, locks: nat)
    requires AllOrderly(ts, locks)
    requires forall i :: !CanStep(ts, i)
    ensures forall i :: 0 <= i < |ts| ==> Done(ts[i]) && Held(ts[i]) == {}
  {
    forall i | 0 <= i < |ts|
      ensures Done(ts[i]) && Held(ts[i]) == {}
    {
      assert Orderly(ts[i], locks);
      if !Done(ts[i]) {
        SomeoneCanStep(ts, locks, i);
      }
    }
  }

  lemma AttemptKeepsOrderly<E>(ts: seq<Thread<E>>, locks: nat, i: nat)
    requires AllOrderly(ts, locks)
    ensures AllOrderly(Attempt(ts, i), locks)
  {
    hide Ascending;
    var us := Attempt(ts, i);
    forall j | 0 <= j < |us|
      ensures Orderly(us[j], locks)
    {
      assert Orderly(ts[j], locks);
    }
  }

  lemma {:induction false} RunKeepsOrderly<E>(ts: seq<Thread<E>>, locks: nat, schedule: seq<nat>)
    requires AllOrderly(ts, locks)
    ensures AllOrderly(After(ts, schedule), locks)
  {
    hide AllOrderly, Attempt;
    if schedule != [] {
      RunKeepsOrderly(ts, locks, schedule[..|schedule| - 1]);
      AttemptKeepsOrderly(After(ts, schedule[..|schedule| - 1]), locks, schedule[|schedule| - 1]);
    }
  }

  // ---------------------------------------------------------------------------------------------
  // Runs end
  // ---------------------------------------------------------------------------------------------

  function Left<E>(t: Thread<E>): nat {
    if Done(t) then 0 else |t.program| - t.pc
  }

  /** The operations not run yet. */
  function Remaining<E>(ts: seq<Thread<E>>): nat {
    if ts == [] then 0 else Remaining(ts[..|ts| - 1]) + Left(ts[|ts| - 1])
  }

  lemma {:induction false} RemainingUpdate<E>(ts: seq<Thread<E>>, i: nat, t: Thread<E>)
    requires i < |ts|
    ensures Remaining(ts[i := t]) == Remaining(ts) - Left(ts[i]) + Left(t)
  {
    var last := |ts| - 1;
    if i == last {
      assert ts[i := t][..last] == ts[..last];
    } else {
      RemainingUpdate(ts[..last], i, t);
      assert ts[i := t][..last] == ts[..last][i := t];
    }
  }

  /** How many attempts of the schedule ran an operation. */
  function Effective<E>(ts: seq<Thread<E>>, schedule: seq<nat>): nat {
    if schedule == [] then 0
    else
      var front := schedule[..|schedule| - 1];
      Effective(ts, front) + if CanStep(After(ts, front), schedule[|schedule| - 1]) then 1 else 0
  }

  lemma {:induction false} EveryStepCounts<E>(ts: seq<Thread<E>>, schedule: seq<nat>)
    ensures Effective(ts, schedule) + Remaining(After(ts, schedule)) == Remaining(ts)
  {
    if schedule != [] {
      var front, i := schedule[..|schedule| - 1], schedule[|schedule| - 1];
      EveryStepCounts(ts, front);
      var us := After(ts, front);
      if CanStep(us, i) {
        RemainingUpdate(us, i, Thread(us[i].program, us[i].pc + 1));
      }
    }
  }

  lemma {:induction false} NothingRemains<E>(ts: seq<Thread<E>>)
    ensures Remaining(ts) == 0 <==> forall i :: 0 <= i < |ts| ==> Done(ts[i])
  {
    if ts != [] {
      var front := ts[..|ts| - 1];
      NothingRemains(front);
      assert forall i :: 0 <= i < |front| ==> front[i] == ts[i];
    }
  }

  /** A schedule under which no one can go on has run every operation of every thread. */
  lemma StuckMeansFinished<E>(ts: seq<Thread<E>>, locks: nat, schedule: seq<nat>)
    requires AllOrderly(ts, locks)
    requires forall i :: !CanStep(After(ts, schedule), i)
    ensures Effective(ts, schedule) == Remaining(ts)
    ensures forall i :: 0 <= i < |After(ts, schedule)| ==>
              Done(After(ts, schedule)[i]) && Held(After(ts, schedule)[i]) == {}
  {
    hide Remaining, Effective, After, AllOrderly, Done, Held;
    RunKeepsOrderly(ts, locks, schedule);
    NoDeadlock(After(ts, schedule), locks);
    NothingRemains(After(ts, schedule));
    EveryStepCounts(ts, schedule);
  }

  // ---------------------------------------------------------------------------------------------
  // Mutual exclusion
  // ---------------------------------------------------------------------------------------------

  ghost predicate Exclusive<E>(ts: seq<Thread<E>>) {
    forall i, j :: 0 <= i < j < |ts| ==> Held(ts[i]) !! Held(ts[j])
  }

  lemma HeldAfterStep<E>(t: Thread<E>)
    requires !Done(t)
    ensures Held(Thread(t.program, t.pc + 1))
         <= Held(t) + if t.program[t.pc].Acquire? then {t.program[t.pc].lock} else {}
  {
  }

  lemma AttemptKeepsExclusive<E>(ts: seq<Thread<E>>, i: nat)
    requires Exclusive(ts)
    ensures Exclusive(Attempt(ts, i))
  {
    if CanStep(ts, i) {
      HeldAfterStep(ts[i]);
      hide Held, Done;
      var us := Attempt(ts, i);
      forall a, b | 0 <= a < b < |us|
        ensures Held(us[a]) !! Held(us[b])
      {
        assert Held(ts[a]) !! Held(ts[b]);
      }
    }
  }

  /** Threads that start with no lock never hold one lock twice. */
  lemma {:induction false} ExclusiveAlways<E>(ts: seq<Thread<E>>, schedule: seq<nat>)
    requires forall i :: 0 <= i < |ts| ==> ts[i].pc == 0
    ensures Exclusive(After(ts, schedule))
  {
    if schedule != [] {
      ExclusiveAlways(ts, schedule[..|schedule| - 1]);
      AttemptKeepsExclusive(After(ts, schedule[..|schedule| - 1]), schedule[|schedule| - 1]);
    }
  }

  // ---------------------------------------------------------------------------------------------
  // The rule is needed
  // ---------------------------------------------------------------------------------------------

  /** Takes `low` and then, holding it, `high`. */
  function TwoLocks<E>(low: nat, high: nat): seq<Op<E>> {
    [Acquire(low), Acquire(high), Release(high), Release(low)]
  }

  lemma TwoLocksAscend<E>(low: nat, high: nat)
    requires low < high
    ensures Ascending<E>(TwoLocks(low, high), high + 1)
  {
    var p := TwoLocks<E>(low, high);
    assert Holds(p, 0) == {};
    assert Holds(p, 1) == {low};
    assert Holds(p, 2) == {low, high};
    assert Holds(p, 3) == {low};
    assert Holds(p, 4) == {};
  }

  function Alone(k: nat): seq<nat> {
    seq(k, _ => 0)
  }

  /** A program next to one that has not started runs on, as long as it does not wait for itself. */
  lemma {:induction false} RunsAlone<E>(p: seq<Op<E>>, q: seq<Op<E>>, k: nat)
    requires k <= |p|
    requires forall j :: 0 <= j < k && p[j].Acquire? ==> p[j].lock !in Holds(p, j)
    ensures After([Thread(p, 0), Thread(q, 0)], Alone(k)) == [Thread(p, k), Thread(q, 0)]
  {
    if k > 0 {
      RunsAlone(p, q, k - 1);
      assert Alone(k)[..k - 1] == Alone(k - 1);
      var ts := [Thread(p, k - 1), Thread(q, 0)];
      assert Held(ts[0]) == Holds(p, k - 1) && Held(ts[1]) == {};
      assert CanStep(ts, 0);
    }
  }

  /**
   A program that reaches for a lock below one it holds can deadlock with a program that keeps the rule:
   both are in the middle and no one can go on.
   */
  lemma BreakingTheOrderDeadlocks<E>(p: seq<Op<E>>, k: nat, high: nat)
    requires k < |p| && p[k].Acquire? && high in Holds(p, k) && p[k].lock < high
    requires forall j :: 0 <= j <= k && p[j].Acquire? ==> p[j].lock !in Holds(p, j)
    ensures var q := TwoLocks<E>(p[k].lock, high);
            var ts := After([Thread(p, 0), Thread(q, 0)], Alone(k) + [1]);
            && Ascending(q, high + 1)
            && ts == [Thread(p, k), Thread(q, 1)]
            && forall i :: !CanStep(ts, i)
  {
    var low := p[k].lock;
    var q := TwoLocks<E>(low, high);
    TwoLocksAscend<E>(low, high);
    RunsAlone(p, q, k);
    var schedule := Alone(k) + [1];
    assert schedule[..|schedule| - 1] == Alone(k);
    var us := [Thread(p, k), Thread(q, 0)];
    assert Held(us[0]) == Holds(p, k) && Held(us[1]) == {};
    assert CanStep(us, 1);
    var ts := [Thread(p, k), Thread(q, 1)];
    assert After([Thread(p, 0), Thread(q, 0)], schedule) == ts;
    assert Holds(q, 0) == {} && Holds(q, 1) == {low};
    assert high in Held(ts[0]) && low in Held(ts[1]);
    assert ts[1].program[1] == Acquire(high);
  }
}
