/**
 First come, first served, exactly: a creation log lets some keeper be overtaken if and only if the log is not
 in the order of the ticket names.
 */
module SlotOvertaking {
  import opened SlotQueue

  /** The tickets in the order of their creation. */
  ghost function Log(s: State): seq<Ticket> {
    seq(|s.created|, i requires 0 <= i < |s.created| =>
      if s.created[i] in s.keepers then s.keepers[s.created[i]].ticket else Ticket(0, s.created[i]))
  }

  /** A step that gives a keeper a slot while an older ticket waits. */
  ghost predicate OvertakesNow(s: State, step: Step) {
    exists p, q :: Takes(s, step, p) && OlderWaiter(s, p, q)
  }

  /** Some step of the run does. */
  ghost predicate Overtakes(n: nat, s: State, steps: seq<Step>)
    requires CanRun(n, s, steps)
    decreases |steps|
  {
    steps != [] && (OvertakesNow(s, steps[0]) || Overtakes(n, Do(n, s, steps[0]), steps[1..]))
  }

  // ---------------------------------------------------------------------------------------------
  // In order, never
  // ---------------------------------------------------------------------------------------------

  lemma LogInOrder(n: nat, s: State)
    requires Inv(n, s)
    ensures CreatedInOrder(s) <==> Sorted(Log(s))
  {
    hide Before;
    var log := Log(s);
    forall i | 0 <= i < |log|
      ensures s.created[i] in s.keepers && log[i] == s.keepers[s.created[i]].ticket
    {
      assert s.created[i] in s.created;
    }
  }

  /** A run whose tickets are created in order has no overtaking, at no point. */
  lemma {:induction false} NeverInOrder(n: nat, s: State, steps: seq<Step>)
    requires Inv(n, s) && CanRun(n, s, steps) && CreatedInOrder(After(n, s, steps))
    ensures !Overtakes(n, s, steps)
    decreases |steps|
  {
    hide Inv, Do, Enabled, CreatedInOrder, Takes, OlderWaiter;
    if steps != [] {
      var next := Do(n, s, steps[0]);
      LogGrows(n, s, steps);
      EarlierInOrder(n, s, After(n, s, steps));
      forall p, q | Takes(s, steps[0], p)
        ensures !OlderWaiter(s, p, q)
      {
        TakesIsTryLock(s, steps[0], p);
        ServedInOrder(n, s, p, q);
      }
      InvStep(n, s, steps[0]);
      NeverInOrder(n, next, steps[1..]);
    }
  }

  lemma TakesIsTryLock(s: State, step: Step, p: Pid)
    requires Takes(s, step, p)
    ensures step == TryLock(p)
  {
  }

  // ---------------------------------------------------------------------------------------------
  // Out of order, always possible
  // ---------------------------------------------------------------------------------------------

  ghost predicate Reaches(n: nat, s: State, steps: seq<Step>, later: State) {
    CanRun(n, s, steps) && After(n, s, steps) == later
  }

  lemma ReachesByStep(n: nat, s: State, step: Step, steps: seq<Step>, later: State)
    requires Enabled(s, step) && Reaches(n, Do(n, s, step), steps, later)
    ensures Reaches(n, s, [step] + steps, later)
  {
    hide Enabled, Do;
    assert ([step] + steps)[1..] == steps;
  }

  lemma {:induction false} ReachesOn(n: nat, s: State, a: seq<Step>, mid: State, b: seq<Step>, later: State)
    requires Reaches(n, s, a, mid) && Reaches(n, mid, b, later)
    ensures Reaches(n, s, a + b, later)
    decreases |a|
  {
    hide Enabled, Do;
    if a == [] {
      assert a + b == b;
    } else {
      ReachesOn(n, Do(n, s, a[0]), a[1..], mid, b, later);
      ReachesByStep(n, s, a[0], a[1..] + b, later);
      assert a + b == [a[0]] + (a[1..] + b);
    }
  }

  lemma {:induction false} OvertakesLast(n: nat, s: State, steps: seq<Step>, last: State, step: Step)
    requires Reaches(n, s, steps, last) && Enabled(last, step) && OvertakesNow(last, step)
    ensures Reaches(n, s, steps + [step], Do(n, last, step)) && Overtakes(n, s, steps + [step])
    decreases |steps|
  {
    hide Enabled, Do, OvertakesNow;
    var all := steps + [step];
    if steps == [] {
      assert all[0] == step && all[1..] == [];
      assert last == s && CanRun(n, Do(n, s, step), all[1..]);
      assert After(n, Do(n, s, step), all[1..]) == Do(n, s, step);
      assert OvertakesNow(s, all[0]) && CanRun(n, s, all);
    } else {
      OvertakesLast(n, Do(n, s, steps[0]), steps[1..], last, step);
      assert all[1..] == steps[1..] + [step];
    }
  }

  ghost predicate DistinctPids(log: seq<Ticket>) {
    forall i, j :: 0 <= i < j < |log| ==> log[i].pid != log[j].pid
  }

  /** Named after one another by a clock that does not go back. */
  ghost predicate ClockForward(steps: seq<Step>) {
    forall i, j :: 0 <= i < j < |steps| && steps[i].Start? && steps[j].Start? ==> steps[i].time <= steps[j].time
  }

  ghost predicate NoStart(steps: seq<Step>) {
    forall i :: 0 <= i < |steps| ==> !steps[i].Start?
  }

  ghost predicate IsNamed(s: State, t: Ticket) {
    t.pid in s.keepers && s.keepers[t.pid] == Keeper(t, Named, 0)
  }

  /** The first `k` tickets have been named, and nothing else has happened. */
  ghost predicate AllNamed(s: State, ts: seq<Ticket>, k: nat)
    requires k <= |ts|
  {
    && s.queue == {} && s.locks == map[] && s.created == []
    && (forall i :: 0 <= i < k ==> IsNamed(s, ts[i]))
    && (forall p :: p in s.keepers ==> exists i :: 0 <= i < k && ts[i].pid == p)
  }

  lemma NameOne(n: nat, s: State, ts: seq<Ticket>, k: nat)
    requires k < |ts| && DistinctPids(ts) && AllNamed(s, ts, k)
    ensures var step := Start(ts[k].pid, ts[k].time);
            Enabled(s, step) && AllNamed(Do(n, s, step), ts, k + 1)
  {
    var next := Do(n, s, Start(ts[k].pid, ts[k].time));
    forall i | 0 <= i < k + 1
      ensures IsNamed(next, ts[i])
    {
      assert i < k ==> IsNamed(s, ts[i]);
    }
    forall p | p in next.keepers
      ensures exists i :: 0 <= i < k + 1 && ts[i].pid == p
    {
      if p != ts[k].pid {
        assert p in s.keepers;
        var i :| 0 <= i < k && ts[i].pid == p;
      }
    }
  }

  ghost function Starts(ts: seq<Ticket>): seq<Step> {
    seq(|ts|, i requires 0 <= i < |ts| => Start(ts[i].pid, ts[i].time))
  }

  lemma {:induction false} NameAll(n: nat, s: State, ts: seq<Ticket>, k: nat) returns (later: State)
    requires k <= |ts| && DistinctPids(ts) && AllNamed(s, ts, k)
    ensures Reaches(n, s, Starts(ts[k..]), later) && AllNamed(later, ts, |ts|)
    decreases |ts| - k
  {
    hide Do, Enabled, AllNamed;
    if k == |ts| {
      later := s;
      assert Starts(ts[k..]) == [];
    } else {
      var step := Start(ts[k].pid, ts[k].time);
      NameOne(n, s, ts, k);
      later := NameAll(n, Do(n, s, step), ts, k + 1);
      ReachesByStep(n, s, step, Starts(ts[k + 1..]), later);
      assert Starts(ts[k..]) == [step] + Starts(ts[k + 1..]);
    }
  }

  /** The tickets `log[..c]` are created, the keeper of `log[i]` may have listed the queue. */
  ghost predicate Stage(s: State, log: seq<Ticket>, c: nat)
    requires c <= |log|
  {
    && s.locks == map[] && |s.created| == c
    && (forall m :: 0 <= m < c ==> Logged(s, log[m], m))
    && (forall m :: c <= m < |log| ==> IsNamed(s, log[m]))
  }

  ghost predicate Logged(s: State, t: Ticket, m: nat) {
    m < |s.created| && s.created[m] == t.pid && t.pid in s.keepers && s.keepers[t.pid].ticket == t
  }

  /** A step of one keeper that creates nothing leaves the stage. */
  lemma StageKeeps(n: nat, s: State, log: seq<Ticket>, c: nat, step: Step)
    requires c <= |log| && Stage(s, log, c) && Enabled(s, step)
    requires step.Snapshot? || step.Check? || step.Decide? || step.Exit?
    requires exists m :: 0 <= m < c && log[m].pid == step.p
    requires DistinctPids(log)
    ensures Stage(Do(n, s, step), log, c)
  {
    OthersKeep(n, s, step);
    hide Before, Enabled;
    var later := Do(n, s, step);
    forall m | 0 <= m < c
      ensures Logged(later, log[m], m)
    {
      assert Logged(s, log[m], m);
    }
    forall m | c <= m < |log|
      ensures IsNamed(later, log[m])
    {
      assert IsNamed(s, log[m]);
    }
  }

  lemma StageCreates(n: nat, s: State, log: seq<Ticket>, c: nat)
    requires c < |log| && Stage(s, log, c) && DistinctPids(log)
    ensures Enabled(s, Create(log[c].pid))
    ensures var later := Do(n, s, Create(log[c].pid));
            && Stage(later, log, c + 1)
            && later.keepers == s.keepers[log[c].pid := Keeper(log[c], Queued, 0)]
            && later.queue == s.queue + {log[c]}
  {
    assert IsNamed(s, log[c]);
    var later := Do(n, s, Create(log[c].pid));
    forall m | 0 <= m < c + 1
      ensures Logged(later, log[m], m)
    {
      assert m < c ==> Logged(s, log[m], m);
    }
    forall m | c + 1 <= m < |log|
      ensures IsNamed(later, log[m])
    {
      assert IsNamed(s, log[m]);
    }
  }

  /** The keepers before `i` create their tickets and give up. */
  lemma {:induction false} ComeAndGo(n: nat, s: State, log: seq<Ticket>, c: nat, i: nat)
    returns (steps: seq<Step>, later: State)
    requires c <= i < |log| && DistinctPids(log) && Stage(s, log, c) && s.queue == {}
    ensures Reaches(n, s, steps, later) && NoStart(steps) && Stage(later, log, i) && later.queue == {}
    decreases i - c
  {
    hide Do, Stage;
    if c == i {
      steps, later := [], s;
    } else {
      var p := log[c].pid;
      StageCreates(n, s, log, c);
      var created := Do(n, s, Create(p));
      ExitEmpties(n, created, log[c]);
      var left := Do(n, created, Exit(p));
      assert log[c].pid == p;
      StageKeeps(n, created, log, c + 1, Exit(p));
      var rest;
      rest, later := ComeAndGo(n, left, log, c + 1, i);
      ReachesByStep(n, created, Exit(p), rest, later);
      ReachesByStep(n, s, Create(p), [Exit(p)] + rest, later);
      steps := [Create(p)] + ([Exit(p)] + rest);
    }
  }

  lemma ExitEmpties(n: nat, s: State, t: Ticket)
    requires t.pid in s.keepers && s.keepers[t.pid] == Keeper(t, Queued, 0) && s.queue == {t}
    ensures Enabled(s, Exit(t.pid)) && Do(n, s, Exit(t.pid)).queue == {}
  {
  }

  /** The keeper of `t` is checking a list of its own ticket only. */
  ghost predicate SawOnlyItself(s: State, t: Ticket) {
    t.pid in s.keepers && s.keepers[t.pid].pc == Scanning([t], [])
  }

  ghost predicate WaitQueued(s: State, t: Ticket) {
    t.pid in s.keepers && s.keepers[t.pid].pc == Queued
  }

  /** The later tickets are created while the keeper of `log[i]` checks its list. */
  lemma {:induction false} CreateRest(n: nat, s: State, log: seq<Ticket>, c: nat, i: nat)
    returns (steps: seq<Step>, later: State)
    requires i < c <= |log| && DistinctPids(log) && Stage(s, log, c) && SawOnlyItself(s, log[i])
    requires forall m :: i < m < c ==> WaitQueued(s, log[m])
    ensures Reaches(n, s, steps, later) && NoStart(steps) && Stage(later, log, |log|) && SawOnlyItself(later, log[i])
    ensures forall m :: i < m < |log| ==> WaitQueued(later, log[m])
    decreases |log| - c
  {
    hide Do, Stage;
    if c == |log| {
      steps, later := [], s;
    } else {
      StageCreates(n, s, log, c);
      var next := Do(n, s, Create(log[c].pid));
      forall m | i < m < c + 1
        ensures WaitQueued(next, log[m])
      {
        assert m < c ==> WaitQueued(s, log[m]);
      }
      var rest;
      rest, later := CreateRest(n, next, log, c + 1, i);
      ReachesByStep(n, s, Create(log[c].pid), rest, later);
      steps := [Create(log[c].pid)] + rest;
    }
  }

  lemma ListsItself(n: nat, s: State, t: Ticket)
    requires t.pid in s.keepers && s.keepers[t.pid] == Keeper(t, Queued, 0) && s.queue == {t}
    ensures Enabled(s, Snapshot(t.pid, [t])) && SawOnlyItself(Do(n, s, Snapshot(t.pid, [t])), t)
  {
  }

  /** Alone on its list, a keeper comes to try the first slot. */
  lemma GoesFirst(n: nat, s: State, t: Ticket)
    requires n > 0 && SawOnlyItself(s, t) && s.keepers[t.pid].ticket == t && s.locks == map[]
    ensures Enabled(s, Check(t.pid)) && Enabled(Do(n, s, Check(t.pid)), Decide(t.pid))
    ensures var last := Do(n, Do(n, s, Check(t.pid)), Decide(t.pid));
            && Takes(last, TryLock(t.pid), t.pid)
            && last.keepers == s.keepers[t.pid := s.keepers[t.pid].(pc := Trying(0))]
            && last.created == s.created
  {
    assert [t][1..] == [] && [] + [t] == [t];
    var checked := Do(n, s, Check(t.pid));
    assert checked.keepers[t.pid].pc == Scanning([], [t]);
  }

  lemma StageLog(s: State, log: seq<Ticket>)
    requires Stage(s, log, |log|)
    ensures Log(s) == log
  {
    forall m | 0 <= m < |log|
      ensures Log(s)[m] == log[m]
    {
      assert Logged(s, log[m], m);
    }
  }

  /** The tickets of a log in the order of their names. */
  lemma NamesInOrder(log: seq<Ticket>) returns (names: seq<Ticket>)
    requires DistinctPids(log)
    ensures Sorted(names) && DistinctPids(names) && (forall t :: t in names <==> t in log)
  {
    var queue := set t | t in log;
    names := ListingExists(queue);
    assert forall t :: t in names <==> t in queue;
    TicketsAreOrdered();
    hide Before;
    forall i, j | 0 <= i < j < |names|
      ensures names[i].pid != names[j].pid
    {
      assert names[i] in names && names[j] in names;
      assert names[i] in queue && names[j] in queue && Before(names[i], names[j]);
      var a :| 0 <= a < |log| && log[a] == names[i];
      var b :| 0 <= b < |log| && log[b] == names[j];
      assert a != b;
    }
  }

  lemma AllNamedIsStage(s: State, names: seq<Ticket>, log: seq<Ticket>)
    requires AllNamed(s, names, |names|) && forall t :: t in names <==> t in log
    ensures Stage(s, log, 0) && s.queue == {}
  {
    forall m | 0 <= m < |log|
      ensures IsNamed(s, log[m])
    {
      assert log[m] in names;
      var i :| 0 <= i < |names| && names[i] == log[m];
      assert IsNamed(s, names[i]);
    }
  }

  lemma NothingNamed(ts: seq<Ticket>)
    ensures AllNamed(INITIAL, ts, 0)
  {
  }

  lemma {:induction false} CreateAndList(n: nat, s: State, log: seq<Ticket>, i: nat)
    returns (steps: seq<Step>, later: State)
    requires i < |log| && DistinctPids(log) && Stage(s, log, i) && s.queue == {}
    ensures Reaches(n, s, steps, later) && NoStart(steps) && Stage(later, log, i + 1) && SawOnlyItself(later, log[i])
  {
    hide Do, Stage, Enabled;
    var t := log[i];
    StageCreates(n, s, log, i);
    var created := Do(n, s, Create(t.pid));
    ListsItself(n, created, t);
    var look := Snapshot(t.pid, [t]);
    assert log[i].pid == look.p;
    StageKeeps(n, created, log, i + 1, look);
    later := Do(n, created, look);
    ReachesByStep(n, created, look, [], later);
    ReachesByStep(n, s, Create(t.pid), [look] + [], later);
    steps := [Create(t.pid)] + ([look] + []);
  }

  lemma {:induction false} GoOn(n: nat, s: State, log: seq<Ticket>, i: nat, j: nat)
    returns (steps: seq<Step>, last: State)
    requires n > 0 && i < j < |log| && DistinctPids(log) && Before(log[j], log[i])
    requires Stage(s, log, |log|) && SawOnlyItself(s, log[i]) && WaitQueued(s, log[j])
    ensures Reaches(n, s, steps, last) && NoStart(steps)
    ensures Takes(last, TryLock(log[i].pid), log[i].pid) && OlderWaiter(last, log[i].pid, log[j].pid)
    ensures Log(last) == log
  {
    hide Do, Before, Enabled, Takes;
    var p := log[i].pid;
    assert Logged(s, log[i], i) && Logged(s, log[j], j);
    GoesFirst(n, s, log[i]);
    var checked := Do(n, s, Check(p));
    last := Do(n, checked, Decide(p));
    StageLog(s, log);
    assert Log(last) == Log(s);
    ReachesByStep(n, checked, Decide(p), [], last);
    ReachesByStep(n, s, Check(p), [Decide(p)] + [], last);
    steps := [Check(p)] + ([Decide(p)] + []);
  }

  lemma NamedByTheClock(names: seq<Ticket>, rest: seq<Step>)
    requires Sorted(names) && NoStart(rest)
    ensures ClockForward(Starts(names) + rest)
  {
  }

  /**
   When `log[j]` is older than `log[i]` but created after it: the keepers are named in the order of the clock,
   the first `i` come and go, the keeper of `log[i]` lists the queue, and only then the others create theirs.
   */
  lemma Overtake(n: nat, log: seq<Ticket>, i: nat, j: nat) returns (steps: seq<Step>, last: State)
    requires n > 0 && i < j < |log| && DistinctPids(log) && Before(log[j], log[i])
    ensures Reaches(n, INITIAL, steps, last) && ClockForward(steps)
    ensures Takes(last, TryLock(log[i].pid), log[i].pid) && OlderWaiter(last, log[i].pid, log[j].pid)
    ensures Log(last) == log
  {
    hide Do, Before, Stage, AllNamed, Enabled, Reaches, Takes, OlderWaiter, Sorted, ClockForward, Log;
    var names := NamesInOrder(log);
    NothingNamed(names);
    assert names[0..] == names;
    var named := NameAll(n, INITIAL, names, 0);
    AllNamedIsStage(named, names, log);
    var comeAndGo, alone := ComeAndGo(n, named, log, 0, i);
    var list, listed := CreateAndList(n, alone, log, i);
    var createRest, full := CreateRest(n, listed, log, i + 1, i);
    var goOn;
    goOn, last := GoOn(n, full, log, i, j);
    ReachesOn(n, listed, createRest, full, goOn, last);
    ReachesOn(n, alone, list, listed, createRest + goOn, last);
    ReachesOn(n, named, comeAndGo, alone, list + (createRest + goOn), last);
    var rest := comeAndGo + (list + (createRest + goOn));
    ReachesOn(n, INITIAL, Starts(names), named, rest, last);
    NamedByTheClock(names, rest);
    steps := Starts(names) + rest;
  }

  /** First come, first served depends on the order of creation: any two tickets will do, for any number of slots. */
  lemma OvertakingHappens(n: nat, a: Ticket, b: Ticket) returns (steps: seq<Step>)
    requires n > 0 && a.pid != b.pid && Before(a, b)
    ensures CanRun(n, INITIAL, steps) && ClockForward(steps)
    ensures var s := After(n, INITIAL, steps);
            && Takes(s, TryLock(b.pid), b.pid) && OlderWaiter(s, b.pid, a.pid)
            && Log(s) == [b, a]
  {
    hide Before, Enabled, Do, Takes, OlderWaiter, Log, ClockForward;
    var last;
    steps, last := Overtake(n, [b, a], 0, 1);
  }

  /** Some run creates its tickets in this order and has a keeper overtaken. */
  ghost predicate CanOvertake(n: nat, log: seq<Ticket>) {
    exists steps :: CanRun(n, INITIAL, steps) && Log(After(n, INITIAL, steps)) == log && Overtakes(n, INITIAL, steps)
  }

  /** The same, where the clock that names the tickets does not go back. */
  ghost predicate CanOvertakeByTheClock(n: nat, log: seq<Ticket>) {
    exists steps :: ClockForward(steps)
      && CanRun(n, INITIAL, steps) && Log(After(n, INITIAL, steps)) == log && Overtakes(n, INITIAL, steps)
  }

  lemma OutOfOrder(log: seq<Ticket>) returns (i: nat, j: nat)
    requires DistinctPids(log) && !Sorted(log)
    ensures i < j < |log| && Before(log[j], log[i])
  {
    TicketsAreOrdered();
    i, j :| i < j < |log| && !Before(log[i], log[j]);
    assert log[i] != log[j];
  }

  lemma OvertakeAndTake(n: nat, log: seq<Ticket>)
    requires n > 0 && DistinctPids(log) && !Sorted(log)
    ensures CanOvertakeByTheClock(n, log)
  {
    hide Before, Enabled, Do, Sorted, OlderWaiter, ClockForward, Log;
    var i, j := OutOfOrder(log);
    var steps, last := Overtake(n, log, i, j);
    var take := TryLock(log[i].pid);
    assert OvertakesNow(last, take);
    OvertakesLast(n, INITIAL, steps, last, take);
    TakingKeepsLog(n, last, take);
    ClockStaysForward(steps, take);
    assert ClockForward(steps + [take]) && CanRun(n, INITIAL, steps + [take]);
  }

  lemma TakingKeepsLog(n: nat, s: State, step: Step)
    requires step.TryLock? && Enabled(s, step)
    ensures Log(Do(n, s, step)) == Log(s)
  {
    OthersKeep(n, s, step);
    hide Do;
  }

  lemma ClockStaysForward(steps: seq<Step>, step: Step)
    requires ClockForward(steps) && !step.Start?
    ensures ClockForward(steps + [step])
  {
  }

  /**
   With a slot to take, a creation log allows overtaking if and only if it is out of the order of the names,
   and a clock that goes back is not needed for it.
   */
  lemma OvertakingIffOutOfOrder(n: nat, log: seq<Ticket>)
    requires n > 0 && DistinctPids(log)
    ensures CanOvertake(n, log) <==> !Sorted(log)
    ensures CanOvertakeByTheClock(n, log) <==> !Sorted(log)
  {
    hide Before, Enabled, Do, Sorted, Inv, Log, Overtakes, ClockForward;
    if !Sorted(log) {
      OvertakeAndTake(n, log);
    } else {
      forall steps | CanRun(n, INITIAL, steps) && Log(After(n, INITIAL, steps)) == log
        ensures !Overtakes(n, INITIAL, steps)
      {
        InvInitially(n);
        InvAlways(n, INITIAL, steps);
        LogInOrder(n, After(n, INITIAL, steps));
        NeverInOrder(n, INITIAL, steps);
      }
    }
  }
}
