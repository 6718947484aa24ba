/**
 What the counters of the ingest pipeline count, whatever the interleaving: each is a tally of tasks that
 have passed one step, and the gaps between them are the tasks in between.
 */
module IngestCounters {
  import opened Ingest
  import opened QueueBridge

  // ---------------------------------------------------------------------------------------------
  // Tallies over tasks
  // ---------------------------------------------------------------------------------------------

  ghost function Tally(tasks: seq<Task>, w: Task -> nat): nat {
    if tasks == [] then 0 else Tally(tasks[..|tasks| - 1], w) + w(tasks[|tasks| - 1])
  }

  lemma {:induction false} TallyUpdate(tasks: seq<Task>, i: nat, t: Task, w: Task -> nat)
    requires i < |tasks|
    ensures Tally(tasks[i := t], w) == Tally(tasks, w) - w(tasks[i]) + w(t)
  {
    var last := |tasks| - 1;
    if i == last {
      assert tasks[i := t][..last] == tasks[..last];
    } else {
      TallyUpdate(tasks[..last], i, t, w);
      assert tasks[i := t][..last] == tasks[..last][i := t];
    }
  }

  lemma TallyOneMore(tasks: seq<Task>, t: Task, w: Task -> nat)
    ensures Tally(tasks + [t], w) == Tally(tasks, w) + w(t)
  {
    assert (tasks + [t])[..|tasks|] == tasks;
  }

  lemma {:induction false} TallySame(tasks: seq<Task>, a: Task -> nat, b: Task -> nat)
    requires forall i :: 0 <= i < |tasks| ==> a(tasks[i]) == b(tasks[i])
    ensures Tally(tasks, a) == Tally(tasks, b)
  {
    if tasks != [] {
      TallySame(tasks[..|tasks| - 1], a, b);
    }
  }

  /** If one weight is the sum of two others on every task, so are the tallies. */
  lemma {:induction false} TallySum(tasks: seq<Task>, w: Task -> nat, a: Task -> nat, b: Task -> nat)
    requires forall i :: 0 <= i < |tasks| ==> w(tasks[i]) == a(tasks[i]) + b(tasks[i])
    ensures Tally(tasks, w) == Tally(tasks, a) + Tally(tasks, b)
  {
    if tasks != [] {
      TallySum(tasks[..|tasks| - 1], w, a, b);
    }
  }

  // ---------------------------------------------------------------------------------------------
  // What the counters count
  // ---------------------------------------------------------------------------------------------

  ghost function Marks(e: Effect): Task -> nat {
    t => if Has(t, e) then 1 else 0
  }

  ghost function KeyframeMark(t: Task): nat {
    if Has(t, RecordPacket) && t.job.Handle? && IsKeyframe(t.job.packet) then 1 else 0
  }

  ghost function DeltaMark(t: Task): nat {
    if Has(t, RecordPacket) && !(t.job.Handle? && IsKeyframe(t.job.packet)) then 1 else 0
  }

  ghost function BytesOf(t: Task): nat {
    if Has(t, RecordPacket) && t.job.Handle? then |t.job.packet.raw| else 0
  }

  ghost function HitMark(t: Task): nat {
    if Has(t, CountRequest) && t.hit then 1 else 0
  }

  /** Every counter is a tally of what the tasks have done. */
  ghost predicate CountersMean(s: System) {
    && s.shared.routed == Tally(s.tasks, Marks(RouteMessage))
    && s.shared.packets == Tally(s.tasks, Marks(RecordPacket))
    && s.shared.keyframes == Tally(s.tasks, KeyframeMark)
    && s.shared.deltas == Tally(s.tasks, DeltaMark)
    && s.shared.bytes == Tally(s.tasks, BytesOf)
    && s.shared.requests == Tally(s.tasks, Marks(CountRequest))
    && s.shared.hits == Tally(s.tasks, HitMark)
  }

  lemma MarksStep(sh: Shared, t: Task)
    requires t.pc < |ProgramOf(t.job)|
    ensures var op := NextOp(t);
            var u := Advance(sh, t, op);
            var after := if op.Do? then Perform(sh, t, op.effect) else sh;
            && Marks(RouteMessage)(u) - Marks(RouteMessage)(t) == after.routed - sh.routed
            && Marks(RecordPacket)(u) - Marks(RecordPacket)(t) == after.packets - sh.packets
            && Marks(CountRequest)(u) - Marks(CountRequest)(t) == after.requests - sh.requests
  {
    hide Has, ProgramOf, Passes, IsKeyframe, Key;
    HasAfter(sh, t, RouteMessage);
    HasAfter(sh, t, RecordPacket);
    HasAfter(sh, t, CountRequest);
  }

  lemma WeightsStep(sh: Shared, t: Task)
    requires t.pc < |ProgramOf(t.job)|
    ensures var op := NextOp(t);
            var u := Advance(sh, t, op);
            var after := if op.Do? then Perform(sh, t, op.effect) else sh;
            && KeyframeMark(u) - KeyframeMark(t) == after.keyframes - sh.keyframes
            && DeltaMark(u) - DeltaMark(t) == after.deltas - sh.deltas
            && BytesOf(u) - BytesOf(t) == after.bytes - sh.bytes
            && HitMark(u) - HitMark(t) == after.hits - sh.hits
  {
    hide Has, ProgramOf, Passes, IsKeyframe, Key;
    HasAfter(sh, t, RecordPacket);
    HasAfter(sh, t, CountRequest);
    HasAfter(sh, t, GetFrame);
    DoneInOrder(t);
  }

  lemma NewTaskHasNothing(job: Job)
    ensures var t := Task(job, 0, false);
            && (forall e :: Marks(e)(t) == 0)
            && KeyframeMark(t) == DeltaMark(t) == BytesOf(t) == HitMark(t) == 0
  {
  }

  lemma {:induction false} CountersAlwaysMean(events: seq<Event>, n: nat)
    requires n <= |events|
    ensures CountersMean(StateAt(events, n))
  {
    hide CountersMean, Apply;
    if n == 0 {
      NothingCountedYet();
    } else {
      CountersAlwaysMean(events, n - 1);
      StepKeepsCounters(StateAt(events, n - 1), events[n - 1]);
    }
  }

  lemma NothingCountedYet()
    ensures CountersMean(INITIAL)
  {
  }

  lemma StepKeepsCounters(s: System, ev: Event)
    requires CountersMean(s)
    ensures CountersMean(Apply(s, ev))
  {
    hide CountersMean, Apply;
    match ev
    case Evict(key) => EvictKeepsCounters(s, key);
    case Arrive(job) => ArriveKeepsCounters(s, job);
    case Run(i) => RunKeepsCounters(s, i);
  }

  lemma EvictKeepsCounters(s: System, key: U64)
    requires CountersMean(s)
    ensures CountersMean(Apply(s, Evict(key)))
  {
    hide Tally, Marks;
  }

  lemma ArriveKeepsCounters(s: System, job: Job)
    requires CountersMean(s)
    ensures CountersMean(Apply(s, Arrive(job)))
  {
    hide Tally, Marks, KeyframeMark, DeltaMark, BytesOf, HitMark;
    NewTaskHasNothing(job);
    TallyAllOneMore(s.tasks, Task(job, 0, false));
  }

  lemma RunKeepsCounters(s: System, i: nat)
    requires CountersMean(s)
    ensures CountersMean(Apply(s, Run(i)))
  {
    hide Tally, Marks, KeyframeMark, DeltaMark, BytesOf, HitMark, Perform, Advance, NextOp, CanRun, ProgramOf;
    if CanRun(s, i) {
      InsideProgram(s, i);
      MarksStep(s.shared, s.tasks[i]);
      WeightsStep(s.shared, s.tasks[i]);
      TallyAllUpdate(s.tasks, i, Advance(s.shared, s.tasks[i], NextOp(s.tasks[i])));
    }
  }

  lemma TallyAllOneMore(tasks: seq<Task>, t: Task)
    ensures Tally(tasks + [t], Marks(RouteMessage)) == Tally(tasks, Marks(RouteMessage)) + Marks(RouteMessage)(t)
    ensures Tally(tasks + [t], Marks(RecordPacket)) == Tally(tasks, Marks(RecordPacket)) + Marks(RecordPacket)(t)
    ensures Tally(tasks + [t], Marks(CountRequest)) == Tally(tasks, Marks(CountRequest)) + Marks(CountRequest)(t)
    ensures Tally(tasks + [t], KeyframeMark) == Tally(tasks, KeyframeMark) + KeyframeMark(t)
    ensures Tally(tasks + [t], DeltaMark) == Tally(tasks, DeltaMark) + DeltaMark(t)
    ensures Tally(tasks + [t], BytesOf) == Tally(tasks, BytesOf) + BytesOf(t)
    ensures Tally(tasks + [t], HitMark) == Tally(tasks, HitMark) + HitMark(t)
  {
    hide Tally, Marks, KeyframeMark, DeltaMark, BytesOf, HitMark;
    TallyOneMore(tasks, t, Marks(RouteMessage));
    TallyOneMore(tasks, t, Marks(RecordPacket));
    TallyOneMore(tasks, t, Marks(CountRequest));
    TallyOneMore(tasks, t, KeyframeMark);
    TallyOneMore(tasks, t, DeltaMark);
    TallyOneMore(tasks, t, BytesOf);
    TallyOneMore(tasks, t, HitMark);
  }

  lemma TallyAllUpdate(tasks: seq<Task>, i: nat, t: Task)
    requires i < |tasks|
    ensures Tally(tasks[i := t], Marks(RouteMessage))
         == Tally(tasks, Marks(RouteMessage)) - Marks(RouteMessage)(tasks[i]) + Marks(RouteMessage)(t)
    ensures Tally(tasks[i := t], Marks(RecordPacket))
         == Tally(tasks, Marks(RecordPacket)) - Marks(RecordPacket)(tasks[i]) + Marks(RecordPacket)(t)
    ensures Tally(tasks[i := t], Marks(CountRequest))
         == Tally(tasks, Marks(CountRequest)) - Marks(CountRequest)(tasks[i]) + Marks(CountRequest)(t)
    ensures Tally(tasks[i := t], KeyframeMark) == Tally(tasks, KeyframeMark) - KeyframeMark(tasks[i]) + KeyframeMark(t)
    ensures Tally(tasks[i := t], DeltaMark) == Tally(tasks, DeltaMark) - DeltaMark(tasks[i]) + DeltaMark(t)
    ensures Tally(tasks[i := t], BytesOf) == Tally(tasks, BytesOf) - BytesOf(tasks[i]) + BytesOf(t)
    ensures Tally(tasks[i := t], HitMark) == Tally(tasks, HitMark) - HitMark(tasks[i]) + HitMark(t)
  {
    hide Tally, Marks, KeyframeMark, DeltaMark, BytesOf, HitMark;
    TallyUpdate(tasks, i, t, Marks(RouteMessage));
    TallyUpdate(tasks, i, t, Marks(RecordPacket));
    TallyUpdate(tasks, i, t, Marks(CountRequest));
    TallyUpdate(tasks, i, t, KeyframeMark);
    TallyUpdate(tasks, i, t, DeltaMark);
    TallyUpdate(tasks, i, t, BytesOf);
    TallyUpdate(tasks, i, t, HitMark);
  }

  /** One for a task between two of its steps. */
  ghost function Between(done: Effect, todo: Effect): Task -> nat {
    t => if Has(t, done) && !Has(t, todo) then 1 else 0
  }

  /**
   The counters never get out of order, and each gap is exactly the number of tasks between the two places
   where they are raised.
   */
  lemma CounterGaps(events: seq<Event>, n: nat)
    requires n <= |events|
    ensures var s := StateAt(events, n);
            && s.shared.routed - s.shared.packets == Tally(s.tasks, Between(RouteMessage, RecordPacket))
            && s.shared.packets - s.shared.requests == Tally(s.tasks, Between(RecordPacket, CountRequest))
            && s.shared.keyframes + s.shared.deltas == s.shared.packets
  {
    var s := StateAt(events, n);
    CountersAlwaysMean(events, n);
    TasksStayInProgram(events, n);
    hide StateAt, Has, InProgram;
    forall i | 0 <= i < |s.tasks|
      ensures Has(s.tasks[i], CountRequest) ==> Has(s.tasks[i], RecordPacket)
      ensures Has(s.tasks[i], RecordPacket) ==> Has(s.tasks[i], RouteMessage)
    {
      assert InProgram(s.tasks[i]);
      DoneInOrder(s.tasks[i]);
    }
    TallySum(s.tasks, Marks(RouteMessage), Marks(RecordPacket), Between(RouteMessage, RecordPacket));
    TallySum(s.tasks, Marks(RecordPacket), Marks(CountRequest), Between(RecordPacket, CountRequest));
    TallySum(s.tasks, Marks(RecordPacket), KeyframeMark, DeltaMark);
  }

  // ---------------------------------------------------------------------------------------------
  // Reading the counters one lock at a time
  // ---------------------------------------------------------------------------------------------

  lemma {:induction false} CountersGrow(events: seq<Event>, m: nat, n: nat)
    requires m <= n <= |events|
    ensures var a, b := StateAt(events, m).shared, StateAt(events, n).shared;
            a.routed <= b.routed && a.packets <= b.packets && a.requests <= b.requests && a.hits <= b.hits
  {
    hide CanRun, ProgramOf, Passes, Key, IsKeyframe;
    if m < n {
      CountersGrow(events, m, n - 1);
    }
  }

  /** A reader that takes the statistics before the telemetry, and that before the router, sees them ordered. */
  lemma SnapshotsInOrder(events: seq<Event>, m: nat, n: nat)
    requires m <= n <= |events|
    ensures StateAt(events, m).shared.requests <= StateAt(events, n).shared.packets
    ensures StateAt(events, m).shared.packets <= StateAt(events, n).shared.routed
  {
    hide StateAt, Tally;
    CountersGrow(events, m, n);
    CounterGaps(events, n);
  }
}
