/**
 The ingest pipeline: one task per packet, all tasks interleaved, over a frame cache and mutex-guarded
 counters.

 A task runs the program of its packet, one operation at a time; an operation on a taken lock waits.  What
 decryption yields and whether the storage accepts a keyframe are part of the packet.  The cache may drop
 any frame at any moment.
 */
module Ingest {
  import opened LockOrder
  import opened Options
  import opened QueueBridge

  /** The locks, in the documented order, below them the key store's own. */
  const KEY_CACHE := 0
  const CDN_ROUTER := 1
  const SYNC_HUB := 2
  const QUEUE_ROUTER := 3
  const TELEMETRY := 4
  const ROUTING_STATS := 5
  const LOCKS := 6

  type Lock = l: nat | l < LOCKS

  datatype Effect = DeriveKey | Open | Store | PickNode | GetFrame | PutFrame | SyncDevices | RouteMessage
                  | RecordPacket | CountRequest | Look

  type Program = seq<Op<Effect>>

  // ---------------------------------------------------------------------------------------------
  // Packets and cache keys
  // ---------------------------------------------------------------------------------------------

  datatype Packet = Packet(raw: seq<byte>, plain: Option<seq<byte>>, stored: bool)

  predicate HasHeader(p: Packet) {
    |p.raw| >= 12
  }

  function Device(p: Packet): U64
    requires HasHeader(p)
  {
    LittleEndianOfFrom(p.raw[..8]);
    Widths();
    FromLittleEndian(p.raw[..8])
  }

  function Version(p: Packet): U32
    requires HasHeader(p)
  {
    LittleEndianOfFrom(p.raw[8..12]);
    Widths();
    FromLittleEndian(p.raw[8..12])
  }

  /** Which bytes of a packet its device and its version are read from. */
  lemma HeaderBytes(p: Packet)
    requires |p.raw| >= 12
    ensures HasHeader(p)
    ensures Device(p)
         == p.raw[0] as nat + 0x100 * p.raw[1] as nat + 0x1_0000 * p.raw[2] as nat + 0x100_0000 * p.raw[3] as nat
            + 0x1_0000_0000 * p.raw[4] as nat + 0x100_0000_0000 * p.raw[5] as nat
            + 0x1_0000_0000_0000 * p.raw[6] as nat + 0x100_0000_0000_0000 * p.raw[7] as nat
    ensures Version(p)
         == p.raw[8] as nat + 0x100 * p.raw[9] as nat + 0x1_0000 * p.raw[10] as nat + 0x100_0000 * p.raw[11] as nat
  {
    hide FromLittleEndian;
    BytesStandFor(p.raw[..8]);
    BytesStandFor(p.raw[8..12]);
  }

  /** `(device << 32) | version` in 64 bits: the shift drops the upper half of the device id. */
  function CacheKey(device: U64, version: U32): U64 {
    (device * 0x1_0000_0000) % 0x1_0000_0000_0000_0000 + version
  }

  /** Shifting multiplies modulo 2^64, and or-ing a number below 2^32 into the result adds it. */
  lemma ShiftAndOr(device: bv64, version: bv32)
    ensures (device << 32) | (version as bv64) == device * 0x1_0000_0000 + (version as bv64)
  {
  }

  lemma ShiftKeepsLowHalf(device: nat)
    ensures (device * 0x1_0000_0000) % 0x1_0000_0000_0000_0000 == (device % 0x1_0000_0000) * 0x1_0000_0000
  {
    var high, low := device / 0x1_0000_0000, device % 0x1_0000_0000;
    assert device * 0x1_0000_0000 == high * 0x1_0000_0000_0000_0000 + low * 0x1_0000_0000;
  }

  /** The key: the low half of the device id above the version. */
  lemma KeyMeans(device: U64, version: U32)
    ensures CacheKey(device, version) == 0x1_0000_0000 * (device % 0x1_0000_0000) + version
  {
    ShiftKeepsLowHalf(device);
  }

  /** Two frames share a key exactly when the versions agree and the devices agree modulo 2^32. */
  lemma KeysCoincideIff(d: U64, v: U32, e: U64, w: U32)
    ensures CacheKey(d, v) == CacheKey(e, w) <==> v == w && d % 0x1_0000_0000 == e % 0x1_0000_0000
  {
    ShiftKeepsLowHalf(d);
    ShiftKeepsLowHalf(e);
  }

  predicate IsKeyframe(p: Packet) {
    p.plain.Some? && p.plain.value != [] && p.plain.value[0] == 1
  }

  predicate HasKeyframeData(p: Packet) {
    IsKeyframe(p) && |p.plain.value| > 1
  }

  /** The packet gets past every failing step. */
  predicate Passes(p: Packet) {
    HasHeader(p) && p.plain.Some? && (HasKeyframeData(p) ==> p.stored)
  }

  function Key(p: Packet): U64
    requires HasHeader(p)
  {
    CacheKey(Device(p), Version(p))
  }

  // ---------------------------------------------------------------------------------------------
  // Programs
  // ---------------------------------------------------------------------------------------------

  function Guarded(lock: nat, effect: Effect): Program {
    [Acquire(lock), Do(effect), Release(lock)]
  }

  /** Up to the cache, or up to the step that fails. */
  function Head(p: Packet): Program {
    if !HasHeader(p) then []
    else
      Guarded(KEY_CACHE, DeriveKey) + [Do(Open)]
      + if !HasKeyframeData(p) then [] else [Do(Store)] + if p.stored then Guarded(CDN_ROUTER, PickNode) else []
  }

  /** From the cache on, where nothing fails. */
  const TAIL: Program :=
    [Do(GetFrame), Do(PutFrame)] + Guarded(SYNC_HUB, SyncDevices) + Guarded(QUEUE_ROUTER, RouteMessage)
    + Guarded(TELEMETRY, RecordPacket) + Guarded(ROUTING_STATS, CountRequest)

  /** A packet, or a reader of what one lock guards. */
  datatype Job = Handle(packet: Packet) | Read(lock: Lock)

  function ProgramOf(job: Job): Program {
    match job
    case Handle(p) => Head(p) + if Passes(p) then TAIL else []
    case Read(lock) => Guarded(lock, Look)
  }

  ghost predicate LockFree(program: Program) {
    Holds(program, |program|) == {}
  }

  lemma {:induction false} HoldsPrefix(a: Program, b: Program, k: nat)
    requires k <= |a|
    ensures Holds(a + b, k) == Holds(a, k)
  {
    if k > 0 {
      HoldsPrefix(a, b, k - 1);
    }
  }

  /** After a part that gives everything back, a program holds what its rest holds. */
  lemma {:induction false} HoldsRest(a: Program, b: Program, k: nat)
    requires LockFree(a) && k <= |b|
    ensures Holds(a + b, |a| + k) == Holds(b, k)
  {
    HoldsPrefix(a, b, |a|);
    if k > 0 {
      HoldsRest(a, b, k - 1);
      assert (a + b)[|a| + k - 1] == b[k - 1];
    }
  }

  // What the programs do, and under which lock.

  /** The effects of a program in their order, each with the locks it is done under. */
  ghost function Effects(program: Program, n: nat): seq<(Effect, set<nat>)>
    requires n <= |program|
  {
    if n == 0 then []
    else
      Effects(program, n - 1)
      + if program[n - 1].Do? then [(program[n - 1].effect, Holds(program, n - 1))] else []
  }

  lemma {:induction false} EffectsPrefix(a: Program, b: Program, n: nat)
    requires n <= |a|
    ensures Effects(a + b, n) == Effects(a, n)
  {
    if n > 0 {
      EffectsPrefix(a, b, n - 1);
      HoldsPrefix(a, b, n - 1);
    }
  }

  /** After a part that gives everything back, the effects of the rest follow its own. */
  lemma {:induction false} EffectsJoin(a: Program, b: Program, n: nat)
    requires LockFree(a) && n <= |b|
    ensures Effects(a + b, |a| + n) == Effects(a, |a|) + Effects(b, n)
  {
    if n == 0 {
      EffectsPrefix(a, b, |a|);
    } else {
      EffectsJoin(a, b, n - 1);
      HoldsRest(a, b, n - 1);
      assert (a + b)[|a| + n - 1] == b[n - 1];
    }
  }

  /** A part of a program that does these things and gives every lock back. */
  ghost predicate Part(program: Program, effects: seq<(Effect, set<nat>)>) {
    LockFree(program) && Effects(program, |program|) == effects
  }

  lemma PartsJoin(a: Program, x: seq<(Effect, set<nat>)>, b: Program, y: seq<(Effect, set<nat>)>)
    requires Part(a, x) && Part(b, y)
    ensures Part(a + b, x + y)
  {
    EffectsJoin(a, b, |b|);
    HoldsRest(a, b, |b|);
  }

  lemma GuardedPart(lock: nat, effect: Effect)
    ensures Part(Guarded(lock, effect), [(effect, {lock})])
  {
    var g := Guarded(lock, effect);
    assert Holds(g, 1) == {lock};
    assert Holds(g, 2) == {lock};
    assert Holds(g, 3) == {};
    assert Effects(g, 0) == [];
    assert Effects(g, 1) == [];
    assert Effects(g, 2) == [(effect, {lock})];
    assert Effects(g, 3) == [(effect, {lock})];
  }

  lemma BarePart(effect: Effect)
    ensures Part([Do(effect)], [(effect, {})])
  {
    assert Holds([Do(effect)], 1) == {};
    assert Effects([Do(effect)], 1) == [(effect, {})];
  }

  lemma TailPart()
    ensures Part(TAIL, [(GetFrame, {}), (PutFrame, {}), (SyncDevices, {2}), (RouteMessage, {3}),
                        (RecordPacket, {4}), (CountRequest, {5})])
  {
    hide Part, Guarded;
    BarePart(GetFrame);
    BarePart(PutFrame);
    GuardedPart(2, SyncDevices);
    GuardedPart(3, RouteMessage);
    GuardedPart(4, RecordPacket);
    GuardedPart(5, CountRequest);
    PartsJoin([Do(GetFrame)], [(GetFrame, {})], [Do(PutFrame)], [(PutFrame, {})]);
    var a, b := [Do(GetFrame), Do(PutFrame)], [(GetFrame, {}), (PutFrame, {})];
    assert a == [Do(GetFrame)] + [Do(PutFrame)];
    PartsJoin(a, b, Guarded(2, SyncDevices), [(SyncDevices, {2})]);
    a, b := a + Guarded(2, SyncDevices), b + [(SyncDevices, {2})];
    PartsJoin(a, b, Guarded(3, RouteMessage), [(RouteMessage, {3})]);
    a, b := a + Guarded(3, RouteMessage), b + [(RouteMessage, {3})];
    PartsJoin(a, b, Guarded(4, RecordPacket), [(RecordPacket, {4})]);
    a, b := a + Guarded(4, RecordPacket), b + [(RecordPacket, {4})];
    PartsJoin(a, b, Guarded(5, CountRequest), [(CountRequest, {5})]);
    assert TAIL == a + Guarded(5, CountRequest);
    assert b + [(CountRequest, {5})] == [(GetFrame, {}), (PutFrame, {}), (SyncDevices, {2}), (RouteMessage, {3}),
                                         (RecordPacket, {4}), (CountRequest, {5})];
  }

  lemma NothingPart()
    ensures Part([], [])
  {
  }

  lemma OpenedPart()
    ensures Part(Guarded(KEY_CACHE, DeriveKey) + [Do(Open)], [(DeriveKey, {0}), (Open, {})])
  {
    GuardedPart(0, DeriveKey);
    BarePart(Open);
    PartsJoin(Guarded(0, DeriveKey), [(DeriveKey, {0})], [Do(Open)], [(Open, {})]);
  }

  lemma StoredPart()
    ensures Part([Do(Store)] + Guarded(CDN_ROUTER, PickNode), [(Store, {}), (PickNode, {1})])
  {
    GuardedPart(1, PickNode);
    BarePart(Store);
    PartsJoin([Do(Store)], [(Store, {})], Guarded(1, PickNode), [(PickNode, {1})]);
  }

  /**
   What a packet does in which order and under which lock, from its bytes: nothing when it is too short; the key
   and the opening; the storage and the edge node for a keyframe with data; and the rest if nothing failed.
   */
  lemma WhatAPacketDoes(p: Packet)
    ensures var opening := [(DeriveKey, {0}), (Open, {})];
            var rest := [(GetFrame, {}), (PutFrame, {}), (SyncDevices, {2}), (RouteMessage, {3}),
                         (RecordPacket, {4}), (CountRequest, {5})];
            var keyframe := p.plain.Some? && |p.plain.value| > 1 && p.plain.value[0] == 1;
            Part(ProgramOf(Handle(p)),
                 if |p.raw| < 12 then []
                 else if p.plain.None? then opening
                 else if keyframe && !p.stored then opening + [(Store, {})]
                 else if keyframe then opening + [(Store, {}), (PickNode, {1})] + rest
                 else opening + rest)
  {
    hide Part, Guarded;
    NothingPart();
    OpenedPart();
    StoredPart();
    BarePart(Store);
    TailPart();
    var program, start := ProgramOf(Handle(p)), Guarded(KEY_CACHE, DeriveKey) + [Do(Open)];
    var opening := [(DeriveKey, {0}), (Open, {})];
    var rest := [(GetFrame, {}), (PutFrame, {}), (SyncDevices, {2}), (RouteMessage, {3}),
                 (RecordPacket, {4}), (CountRequest, {5})];
    var keyframe := p.plain.Some? && |p.plain.value| > 1 && p.plain.value[0] == 1;
    assert keyframe <==> HasKeyframeData(p);
    if |p.raw| >= 12 {
      if !keyframe {
        PartsJoin(start, opening, TAIL, rest);
        assert Head(p) == start;
        assert p.plain.None? ==> program == start;
      } else if p.stored {
        var stored, storing := [Do(Store)] + Guarded(CDN_ROUTER, PickNode), [(Store, {}), (PickNode, {1})];
        PartsJoin(start, opening, stored, storing);
        PartsJoin(start + stored, opening + storing, TAIL, rest);
        assert program == start + stored + TAIL;
      } else {
        PartsJoin(start, opening, [Do(Store)], [(Store, {})]);
        assert program == start + [Do(Store)];
      }
    } else {
      assert program == [];
    }
  }

  /** Never two locks at a time. */
  ghost predicate OneAtATime(program: Program) {
    forall k :: 0 <= k < |program| && program[k].Acquire? ==> Holds(program, k) == {}
  }

  ghost predicate Tame(program: Program) {
    Ascending(program, LOCKS) && OneAtATime(program)
  }

  lemma TameJoins(a: Program, b: Program)
    requires Tame(a) && Tame(b)
    ensures Tame(a + b)
  {
    var c := a + b;
    forall k | 0 <= k < |c|
      ensures InOrder(c, k, LOCKS) && (c[k].Acquire? ==> Holds(c, k) == {})
    {
      if k < |a| {
        HoldsPrefix(a, b, k);
        assert InOrder(a, k, LOCKS);
      } else {
        HoldsRest(a, b, k - |a|);
        assert c[k] == b[k - |a|];
        assert InOrder(b, k - |a|, LOCKS);
      }
    }
    HoldsRest(a, b, |b|);
  }

  lemma TameGuarded(lock: nat, effect: Effect)
    requires lock < LOCKS
    ensures Tame(Guarded(lock, effect))
  {
    var g := Guarded(lock, effect);
    assert Holds(g, 0) == {};
    assert Holds(g, 1) == {lock};
    assert Holds(g, 2) == {lock};
    assert Holds(g, 3) == {};
  }

  lemma TameDo(effect: Effect)
    ensures Tame([Do(effect)])
  {
    assert Holds([Do(effect)], 1) == {};
  }

  /** Every program of the pipeline keeps the lock order, and holds no two locks at once. */
  lemma ProgramsAreTame(job: Job)
    ensures Ascending(ProgramOf(job), LOCKS) && OneAtATime(ProgramOf(job))
  {
    hide Ascending, OneAtATime, Guarded;
    TameGuarded(if job.Read? then job.lock else KEY_CACHE, if job.Read? then Look else DeriveKey);
    if job.Handle? {
      HeadIsTame(job.packet);
      TailIsTame();
      TameJoins(Head(job.packet), TAIL);
      assert Head(job.packet) + [] == Head(job.packet);
    }
  }

  lemma HeadIsTame(p: Packet)
    ensures Tame(Head(p))
  {
    if !HasHeader(p) {
      assert Holds<Effect>([], 0) == {};
    } else {
      hide Tame, Guarded;
      var key := Guarded(KEY_CACHE, DeriveKey);
      TameGuarded(KEY_CACHE, DeriveKey);
      TameDo(Open);
      TameJoins(key, [Do(Open)]);
      TameDo(Store);
      TameGuarded(CDN_ROUTER, PickNode);
      var soFar := key + [Do(Open)];
      TameJoins(soFar, [Do(Store)]);
      TameJoins([Do(Store)], Guarded(CDN_ROUTER, PickNode));
      TameJoins(soFar, [Do(Store)] + Guarded(CDN_ROUTER, PickNode));
      assert soFar + [] == soFar && [Do(Store)] + [] == [Do(Store)];
    }
  }

  lemma TailIsTame()
    ensures Tame(TAIL)
  {
    hide Tame, Guarded;
    var a, b := Guarded(SYNC_HUB, SyncDevices), Guarded(QUEUE_ROUTER, RouteMessage);
    var c, d := Guarded(TELEMETRY, RecordPacket), Guarded(ROUTING_STATS, CountRequest);
    TameDo(GetFrame);
    TameDo(PutFrame);
    TameGuarded(SYNC_HUB, SyncDevices);
    TameGuarded(QUEUE_ROUTER, RouteMessage);
    TameGuarded(TELEMETRY, RecordPacket);
    TameGuarded(ROUTING_STATS, CountRequest);
    TameJoins([Do(GetFrame)], [Do(PutFrame)]);
    assert [Do(GetFrame)] + [Do(PutFrame)] == [Do(GetFrame), Do(PutFrame)];
    TameJoins([Do(GetFrame), Do(PutFrame)], a);
    TameJoins([Do(GetFrame), Do(PutFrame)] + a, b);
    TameJoins([Do(GetFrame), Do(PutFrame)] + a + b, c);
    TameJoins([Do(GetFrame), Do(PutFrame)] + a + b + c, d);
  }

  // ---------------------------------------------------------------------------------------------
  // The system
  // ---------------------------------------------------------------------------------------------

  /** A task, and whether it found its frame in the cache. */
  datatype Task = Task(job: Job, pc: nat, hit: bool)

  datatype Shared = Shared(
    cache: map<U64, seq<byte>>,
    routed: nat,
    packets: nat, keyframes: nat, deltas: nat, bytes: nat,
    requests: nat, hits: nat)

  datatype System = System(tasks: seq<Task>, shared: Shared)

  const INITIAL := System([], Shared(map[], 0, 0, 0, 0, 0, 0, 0))

  datatype Event = Arrive(job: Job) | Run(task: nat) | Evict(key: U64)

  function ThreadOf(t: Task): Thread<Effect> {
    Thread(ProgramOf(t.job), t.pc)
  }

  function Threads(tasks: seq<Task>): seq<Thread<Effect>> {
    seq(|tasks|, i requires 0 <= i < |tasks| => ThreadOf(tasks[i]))
  }

  /** What an operation of a packet's task does to the cache and the counters. */
  function Perform(sh: Shared, t: Task, e: Effect): Shared {
    if t.job.Read? || !Passes(t.job.packet) then sh
    else
      var p := t.job.packet;
      match e
      case PutFrame => sh.(cache := sh.cache[Key(p) := p.plain.value])
      case RouteMessage => sh.(routed := sh.routed + 1)
      case RecordPacket => sh.(
        packets := sh.packets + 1,
        keyframes := sh.keyframes + (if IsKeyframe(p) then 1 else 0),
        deltas := sh.deltas + (if IsKeyframe(p) then 0 else 1),
        bytes := sh.bytes + |p.raw|)
      case CountRequest => sh.(requests := sh.requests + 1, hits := sh.hits + (if t.hit then 1 else 0))
      case _ => sh
  }

  /** The task after an operation; the cache lookup is remembered. */
  function Advance(sh: Shared, t: Task, op: Op<Effect>): Task {
    t.(pc := t.pc + 1,
       hit := if op == Do(GetFrame) && t.job.Handle? && HasHeader(t.job.packet)
              then Key(t.job.packet) in sh.cache else t.hit)
  }

  predicate CanRun(s: System, i: nat) {
    CanStep(Threads(s.tasks), i)
  }

  function NextOp(t: Task): Op<Effect>
    requires t.pc < |ProgramOf(t.job)|
  {
    ProgramOf(t.job)[t.pc]
  }

  lemma InsideProgram(s: System, i: nat)
    requires CanRun(s, i)
    ensures i < |s.tasks| && s.tasks[i].pc < |ProgramOf(s.tasks[i].job)|
  {
    hide ProgramOf, Free;
  }

  function Apply(s: System, ev: Event): System {
    match ev
    case Arrive(job) => s.(tasks := s.tasks + [Task(job, 0, false)])
    case Evict(key) => s.(shared := s.shared.(cache := s.shared.cache - {key}))
    case Run(i) =>
      if !CanRun(s, i) then s
      else
        var t := s.tasks[i];
        var op := NextOp(t);
        System(s.tasks[i := Advance(s.shared, t, op)], if op.Do? then Perform(s.shared, t, op.effect) else s.shared)
  }

  /** The system after the first `n` events. */
  function StateAt(events: seq<Event>, n: nat): System
    requires n <= |events|
  {
    if n == 0 then INITIAL else Apply(StateAt(events, n - 1), events[n - 1])
  }

  // ---------------------------------------------------------------------------------------------
  // No deadlock
  // ---------------------------------------------------------------------------------------------

  ghost predicate InProgram(t: Task) {
    t.pc <= |ProgramOf(t.job)|
  }

  ghost predicate AllInProgram(tasks: seq<Task>) {
    forall i :: 0 <= i < |tasks| ==> InProgram(tasks[i])
  }

  predicate Finished(t: Task) {
    t.pc >= |ProgramOf(t.job)|
  }

  ghost predicate AllFinished(tasks: seq<Task>) {
    forall i :: 0 <= i < |tasks| ==> Finished(tasks[i])
  }

  lemma {:induction false} TasksStayInProgram(events: seq<Event>, n: nat)
    requires n <= |events|
    ensures AllInProgram(StateAt(events, n).tasks)
  {
    hide ProgramOf, Free, Perform;
    if n > 0 {
      TasksStayInProgram(events, n - 1);
      var s, ev := StateAt(events, n - 1), events[n - 1];
      if ev.Run? && CanRun(s, ev.task) {
        assert InProgram(s.tasks[ev.task]);
      }
    }
  }

  /** Whatever has happened: if no task can go on, all are finished and every lock is free. */
  lemma PipelineNeverDeadlocks(events: seq<Event>, n: nat)
    requires n <= |events|
    requires forall i :: !CanRun(StateAt(events, n), i)
    ensures forall t :: t in StateAt(events, n).tasks ==> Finished(t)
    ensures forall l :: Free(Threads(StateAt(events, n).tasks), l)
  {
    var tasks := StateAt(events, n).tasks;
    var threads := Threads(tasks);
    TasksStayInProgram(events, n);
    hide StateAt, ProgramOf, Free;
    forall i | 0 <= i < |threads|
      ensures Orderly(threads[i], LOCKS)
    {
      assert InProgram(tasks[i]);
      ProgramsAreTame(tasks[i].job);
    }
    assert forall i :: !CanStep(threads, i) by {
      assert forall i :: CanStep(threads, i) == CanRun(StateAt(events, n), i);
    }
    NoDeadlock(threads, LOCKS);
    forall t | t in tasks
      ensures Finished(t)
    {
      var i :| 0 <= i < |tasks| && tasks[i] == t;
      assert LockOrder.Done(threads[i]);
    }
    forall l
      ensures Free(threads, l)
    {
      AllHoldNothing(threads, l);
    }
  }

  lemma AllHoldNothing(threads: seq<Thread<Effect>>, l: nat)
    requires forall i :: 0 <= i < |threads| ==> Held(threads[i]) == {}
    ensures Free(threads, l)
  {
  }

  lemma ThreadsMove(s: System, i: nat)
    ensures Threads(Apply(s, Run(i)).tasks) == Attempt(Threads(s.tasks), i)
  {
    hide ProgramOf, Perform, Free;
  }

  /** No lock is ever held by two tasks. */
  lemma {:induction false} LocksAreExclusive(events: seq<Event>, n: nat)
    requires n <= |events|
    ensures Exclusive(Threads(StateAt(events, n).tasks))
  {
    if n > 0 {
      LocksAreExclusive(events, n - 1);
      var s, ev := StateAt(events, n - 1), events[n - 1];
      match ev
      case Run(i) =>
        ThreadsMove(s, i);
        AttemptKeepsExclusive(Threads(s.tasks), i);
      case Evict(_) =>
      case Arrive(job) =>
        NewTaskHoldsNothing(s.tasks, job);
    }
  }

  lemma NewTaskHoldsNothing(tasks: seq<Task>, job: Job)
    requires Exclusive(Threads(tasks))
    ensures Exclusive(Threads(tasks + [Task(job, 0, false)]))
  {
    var before, after := Threads(tasks), Threads(tasks + [Task(job, 0, false)]);
    assert Held(after[|before|]) == {};
    hide ProgramOf, Held;
    forall a, b | 0 <= a < b < |after|
      ensures Held(after[a]) !! Held(after[b])
    {
      if b < |before| {
        assert Held(before[a]) !! Held(before[b]);
      }
    }
  }

  // ---------------------------------------------------------------------------------------------
  // What a task has done
  // ---------------------------------------------------------------------------------------------

  predicate Has(t: Task, e: Effect) {
    t.pc <= |ProgramOf(t.job)| && Do(e) in ProgramOf(t.job)[..t.pc]
  }

  /** The effects of the part that cannot fail, with their places in it. */
  function Place(e: Effect): nat {
    match e
    case GetFrame => 0
    case PutFrame => 1
    case RouteMessage => 6
    case RecordPacket => 9
    case CountRequest => 12
    case _ => 14
  }

  predicate InTail(e: Effect) {
    e in {GetFrame, PutFrame, RouteMessage, RecordPacket, CountRequest}
  }

  lemma HeadHasNone(p: Packet, e: Effect)
    requires InTail(e)
    ensures Do(e) !in Head(p)
  {
  }

  lemma TailHasOne(e: Effect, k: nat)
    requires InTail(e) && k < |TAIL|
    ensures |TAIL| == 14
    ensures TAIL[k] == Do(e) <==> k == Place(e)
  {
  }

  /** These effects occur once, in the programs of packets that pass, at a known place. */
  lemma EffectAt(job: Job, e: Effect, k: nat)
    requires InTail(e) && k < |ProgramOf(job)|
    ensures ProgramOf(job)[k] == Do(e)
       <==> job.Handle? && Passes(job.packet) && k == |Head(job.packet)| + Place(e)
    ensures job.Handle? && Passes(job.packet) ==> |ProgramOf(job)| == |Head(job.packet)| + 14
  {
    if job.Handle? {
      var head := Head(job.packet);
      HeadHasNone(job.packet, e);
      TailHasOne(e, 0);
      if k < |head| {
        assert ProgramOf(job)[k] == head[k];
      } else {
        TailHasOne(e, k - |head|);
      }
    }
  }

  predicate Past(t: Task, place: nat) {
    t.job.Handle? && Passes(t.job.packet) && t.pc > |Head(t.job.packet)| + place
  }

  lemma HasIsPast(t: Task, e: Effect)
    requires InProgram(t) && InTail(e)
    ensures Has(t, e) <==> Past(t, Place(e))
  {
    hide Passes, Head, Place, InTail;
    var program := ProgramOf(t.job);
    hide ProgramOf;
    if Has(t, e) {
      var k :| 0 <= k < t.pc && program[k] == Do(e);
      EffectAt(t.job, e, k);
    }
    if Past(t, Place(e)) {
      var k := |Head(t.job.packet)| + Place(e);
      EffectAt(t.job, e, k);
      assert program[..t.pc][k] == Do(e);
    }
  }

  /** What running `op` adds to what the task has done, and that it adds it once. */
  lemma HasAfter(sh: Shared, t: Task, e: Effect)
    requires t.pc < |ProgramOf(t.job)| && InTail(e)
    ensures var op, u := NextOp(t), Advance(sh, t, NextOp(t));
            && (Has(u, e) <==> Has(t, e) || op == Do(e))
            && (op == Do(e) ==> !Has(t, e) && t.job.Handle? && Passes(t.job.packet))
  {
    hide Passes, Head, Place, InTail;
    var u := Advance(sh, t, NextOp(t));
    HasIsPast(t, e);
    HasIsPast(u, e);
    EffectAt(t.job, e, t.pc);
  }

  /** The order in which a task does its work. */
  lemma DoneInOrder(t: Task)
    requires InProgram(t)
    ensures Has(t, CountRequest) ==> Has(t, RecordPacket)
    ensures Has(t, RecordPacket) ==> Has(t, RouteMessage)
    ensures Has(t, RouteMessage) ==> Has(t, PutFrame)
    ensures Has(t, PutFrame) ==> Has(t, GetFrame)
    ensures Has(t, GetFrame) ==> t.job.Handle? && Passes(t.job.packet)
    ensures Finished(t) && Has(t, GetFrame) ==> Has(t, CountRequest)
  {
    hide Passes, Head, Has, ProgramOf;
    HasIsPast(t, GetFrame);
    HasIsPast(t, PutFrame);
    HasIsPast(t, RouteMessage);
    HasIsPast(t, RecordPacket);
    HasIsPast(t, CountRequest);
    if Past(t, 0) {
      EffectAt(t.job, GetFrame, 0);
    }
  }
}
