/**
 The pipeline as one caller sees it: a packet that is run alone takes effect as one step, and the class that
 handles packets one after the other keeps to the interleaved system.
 */
module IngestPipeline {
  import opened Ingest
  import opened IngestCache
  import opened LockOrder
  import opened QueueBridge

  // ---------------------------------------------------------------------------------------------
  // One packet alone
  // ---------------------------------------------------------------------------------------------

  /** A task run on by itself for `k` operations. */
  function Solo(sh: Shared, t: Task, k: nat): (Shared, Task) {
    if k == 0 then (sh, t)
    else
      var (sh1, t1) := Solo(sh, t, k - 1);
      if Finished(t1) then (sh1, t1)
      else
        var op := NextOp(t1);
        (if op.Do? then Perform(sh1, t1, op.effect) else sh1, Advance(sh1, t1, op))
  }

  /** The whole effect of a packet that meets no other. */
  function Handled(sh: Shared, p: Packet): Shared {
    if !Passes(p) then sh
    else Shared(
      sh.cache[Key(p) := p.plain.value],
      sh.routed + 1,
      sh.packets + 1,
      sh.keyframes + (if IsKeyframe(p) then 1 else 0),
      sh.deltas + (if IsKeyframe(p) then 0 else 1),
      sh.bytes + |p.raw|,
      sh.requests + 1,
      sh.hits + (if Key(p) in sh.cache then 1 else 0))
  }

  /** The operations before the cache lookup change nothing but how far the task is. */
  lemma HeadStep(sh: Shared, p: Packet, k: nat)
    requires k < |Head(p)|
    ensures var t := Task(Handle(p), k, false);
            && !Finished(t)
            && Advance(sh, t, NextOp(t)) == Task(Handle(p), k + 1, false)
            && (NextOp(t).Do? ==> Perform(sh, t, NextOp(t).effect) == sh)
  {
    hide Head, Passes, Key, IsKeyframe;
    HeadHasNone(p, GetFrame);
    HeadHasNone(p, PutFrame);
    HeadHasNone(p, RouteMessage);
    HeadHasNone(p, RecordPacket);
    HeadHasNone(p, CountRequest);
    assert ProgramOf(Handle(p))[k] == Head(p)[k];
  }

  lemma {:induction false} SoloHead(sh: Shared, p: Packet, k: nat)
    requires k <= |Head(p)|
    ensures Solo(sh, Task(Handle(p), 0, false), k) == (sh, Task(Handle(p), k, false))
  {
    hide Head, Perform, Advance, NextOp, Finished;
    if k > 0 {
      SoloHead(sh, p, k - 1);
      HeadStep(sh, p, k - 1);
    }
  }

  /** After `k` operations of the part that cannot fail. */
  function Partly(sh: Shared, p: Packet, k: nat): Shared
    requires Passes(p)
  {
    var all := Handled(sh, p);
    Shared(
      if k > 1 then all.cache else sh.cache,
      if k > 6 then all.routed else sh.routed,
      if k > 9 then all.packets else sh.packets,
      if k > 9 then all.keyframes else sh.keyframes,
      if k > 9 then all.deltas else sh.deltas,
      if k > 9 then all.bytes else sh.bytes,
      if k > 12 then all.requests else sh.requests,
      if k > 12 then all.hits else sh.hits)
  }

  lemma PartlyStep(sh: Shared, p: Packet, k: nat)
    requires Passes(p) && k < 14
    ensures var t := Task(Handle(p), |Head(p)| + k, k > 0 && Key(p) in sh.cache);
            var op := TAIL[k];
            && Advance(Partly(sh, p, k), t, op) == Task(Handle(p), |Head(p)| + k + 1, Key(p) in sh.cache)
            && (if op.Do? then Perform(Partly(sh, p, k), t, op.effect) else Partly(sh, p, k)) == Partly(sh, p, k + 1)
  {
    assert HasHeader(p);
    hide Passes, Key, IsKeyframe, Head;
    TailHasOne(GetFrame, k);
    TailHasOne(PutFrame, k);
    TailHasOne(RouteMessage, k);
    TailHasOne(RecordPacket, k);
    TailHasOne(CountRequest, k);
  }

  lemma NextInTail(p: Packet, k: nat, hit: bool)
    requires Passes(p) && k < 14
    ensures var t := Task(Handle(p), |Head(p)| + k, hit); !Finished(t) && NextOp(t) == TAIL[k]
  {
    hide Passes, Head;
    TailHasOne(GetFrame, 0);
  }

  lemma {:induction false} SoloTail(sh: Shared, p: Packet, k: nat)
    requires HasHeader(p) && Passes(p) && k <= 14
    ensures Solo(sh, Task(Handle(p), 0, false), |Head(p)| + k)
         == (Partly(sh, p, k), Task(Handle(p), |Head(p)| + k, k > 0 && Key(p) in sh.cache))
  {
    hide Passes, Key, Head, Partly, Perform, Advance, Handled, TAIL, NextOp, Finished;
    if k == 0 {
      SoloHead(sh, p, |Head(p)|);
      PartlyNothing(sh, p);
    } else {
      SoloTail(sh, p, k - 1);
      PartlyStep(sh, p, k - 1);
      NextInTail(p, k - 1, k - 1 > 0 && Key(p) in sh.cache);
    }
  }

  lemma PartlyNothing(sh: Shared, p: Packet)
    requires Passes(p)
    ensures Partly(sh, p, 0) == sh && Partly(sh, p, 14) == Handled(sh, p)
  {
  }

  /** A packet run alone changes the cache and the counters as one step would. */
  lemma SoloIsHandled(sh: Shared, p: Packet)
    ensures var (after, t) := Solo(sh, Task(Handle(p), 0, false), |ProgramOf(Handle(p))|);
            after == Handled(sh, p) && t.job == Handle(p) && t.pc == |ProgramOf(Handle(p))|
  {
    hide Head, Solo, Partly, TAIL;
    if Passes(p) {
      EffectAtLength(p);
      SoloTail(sh, p, 14);
      PartlyNothing(sh, p);
    } else {
      assert Head(p) + [] == Head(p);
      SoloHead(sh, p, |Head(p)|);
    }
  }

  lemma EffectAtLength(p: Packet)
    requires Passes(p)
    ensures |ProgramOf(Handle(p))| == |Head(p)| + 14
  {
  }

  // ---------------------------------------------------------------------------------------------
  // Packets one after the other
  // ---------------------------------------------------------------------------------------------

  lemma {:induction false} PrefixKeepsState(events: seq<Event>, more: seq<Event>, n: nat)
    requires n <= |events|
    ensures StateAt(events + more, n) == StateAt(events, n)
  {
    hide Apply;
    if n > 0 {
      PrefixKeepsState(events, more, n - 1);
    }
  }

  /** A task that is alone with finished ones is never blocked. */
  lemma AloneIsNotBlocked(rest: seq<Task>, t: Task, sh: Shared)
    requires AllFinished(rest) && AllInProgram(rest) && InProgram(t) && !Finished(t)
    ensures CanRun(System(rest + [t], sh), |rest|)
  {
    hide ProgramOf;
    var tasks := rest + [t];
    var threads := Threads(tasks);
    var op := NextOp(t);
    if op.Acquire? {
      forall j | 0 <= j < |threads|
        ensures op.lock !in Held(threads[j])
      {
        ProgramsAreTame(tasks[j].job);
        if j < |rest| {
          assert Finished(rest[j]) && InProgram(rest[j]);
        }
      }
    }
  }

  ghost function Repeated(i: nat, k: nat): seq<Event> {
    seq(k, _ => Run(i))
  }

  /** A packet arrives and is run to its end. */
  ghost function Visit(tasks: nat, p: Packet): seq<Event> {
    [Arrive(Handle(p))] + Repeated(tasks, |ProgramOf(Handle(p))|)
  }

  lemma ApplyAlone(rest: seq<Task>, t: Task, sh: Shared)
    requires AllFinished(rest) && AllInProgram(rest) && InProgram(t) && !Finished(t)
    ensures Apply(System(rest + [t], sh), Run(|rest|))
         == System(rest + [Advance(sh, t, NextOp(t))],
                   if NextOp(t).Do? then Perform(sh, t, NextOp(t).effect) else sh)
  {
    hide ProgramOf, Perform, Advance, CanRun, AllFinished, AllInProgram;
    AloneIsNotBlocked(rest, t, sh);
    assert (rest + [t])[|rest| := Advance(sh, t, NextOp(t))] == rest + [Advance(sh, t, NextOp(t))];
  }

  lemma {:induction false} SoloAt(sh: Shared, p: Packet, k: nat)
    requires k <= |ProgramOf(Handle(p))|
    ensures Solo(sh, Task(Handle(p), 0, false), k).1.pc == k
    ensures Solo(sh, Task(Handle(p), 0, false), k).1.job == Handle(p)
    ensures k < |ProgramOf(Handle(p))| ==> !Finished(Solo(sh, Task(Handle(p), 0, false), k).1)
  {
    hide ProgramOf, Perform;
    if k > 0 {
      SoloAt(sh, p, k - 1);
    }
  }

  lemma {:induction false} RunAlone(events: seq<Event>, p: Packet, k: nat)
    requires k <= |ProgramOf(Handle(p))| && AllFinished(StateAt(events, |events|).tasks)
    ensures var s := StateAt(events, |events|);
            var all := events + Visit(|s.tasks|, p);
            var (sh, t) := Solo(s.shared, Task(Handle(p), 0, false), k);
            |events| + 1 + k <= |all| && StateAt(all, |events| + 1 + k) == System(s.tasks + [t], sh)
  {
    hide ProgramOf, Perform, Advance, AllFinished, NextOp, Finished;
    var s := StateAt(events, |events|);
    var start := Task(Handle(p), 0, false);
    var all := events + Visit(|s.tasks|, p);
    if k == 0 {
      PrefixKeepsState(events, Visit(|s.tasks|, p), |events|);
      assert all[|events|] == Arrive(Handle(p));
    } else {
      RunAlone(events, p, k - 1);
      assert all[|events| + k] == Run(|s.tasks|);
      SoloAt(s.shared, p, k - 1);
      TasksStayInProgram(events, |events|);
      var (sh, t) := Solo(s.shared, start, k - 1);
      hide Apply;
      ApplyAlone(s.tasks, t, sh);
    }
  }

  /** A history of packets handled one after the other, with nothing evicted, that left these counters. */
  ghost predicate History(events: seq<Event>, sh: Shared) {
    && StateAt(events, |events|).shared == sh
    && AllFinished(StateAt(events, |events|).tasks)
    && Sequential(events, |events|)
    && NoEviction(events, |events|)
  }

  lemma HandledExtends(events: seq<Event>, sh: Shared, p: Packet)
    requires History(events, sh)
    ensures History(events + Visit(|StateAt(events, |events|).tasks|, p), Handled(sh, p))
  {
    hide StateAt, ProgramOf, Solo, Handled, AllFinished;
    var s := StateAt(events, |events|);
    var alone := Visit(|s.tasks|, p);
    var all := events + alone;
    var length := |ProgramOf(Handle(p))|;
    RunAlone(events, p, length);
    SoloIsHandled(sh, p);
    SoloAt(sh, p, length);
    var t := Solo(sh, Task(Handle(p), 0, false), length).1;
    assert StateAt(all, |all|) == System(s.tasks + [t], Handled(sh, p));
    OneMoreFinished(s.tasks, t);
    forall k | 0 <= k < |all| && all[k].Run?
      ensures OthersRest(StateAt(all, k), all[k].task)
    {
      if k < |events| {
        PrefixKeepsState(events, alone, k);
        assert events[k] == all[k];
      } else {
        assert all[k] == Run(|s.tasks|);
        RunAlone(events, p, k - |events| - 1);
        OthersAreFinished(s.tasks, Solo(sh, Task(Handle(p), 0, false), k - |events| - 1).1,
                          Solo(sh, Task(Handle(p), 0, false), k - |events| - 1).0);
      }
    }
  }

  lemma OneMoreFinished(rest: seq<Task>, t: Task)
    requires AllFinished(rest) && t.pc == |ProgramOf(t.job)|
    ensures AllFinished(rest + [t])
  {
    hide ProgramOf;
  }

  lemma OthersAreFinished(rest: seq<Task>, t: Task, sh: Shared)
    requires AllFinished(rest)
    ensures OthersRest(System(rest + [t], sh), |rest|)
  {
    hide ProgramOf;
  }

  /** The counters right after one packet that passes. */
  lemma AfterOnePacket(p: Packet)
    requires Passes(p)
    ensures StateAt(Visit(0, p), |Visit(0, p)|).shared == Handled(INITIAL.shared, p)
  {
    hide ProgramOf, Handled, Passes;
    assert StateAt([], 0) == INITIAL;
    HandledExtends([], INITIAL.shared, p);
    assert [] + Visit(0, p) == Visit(0, p);
  }

  /** Read in the other order, telemetry first, the requests can exceed the packets. */
  lemma LateStatisticsCanExceed(p: Packet)
    requires Passes(p)
    ensures var events := Visit(0, p);
            StateAt(events, 0).shared.packets < StateAt(events, |events|).shared.requests
  {
    hide Visit;
    AfterOnePacket(p);
  }

  /** A device gets the frame of any other device that agrees with it modulo 2^32. */
  lemma ForeignFrame(p: Packet, device: U64)
    requires Passes(p) && device % 0x1_0000_0000 == Device(p) % 0x1_0000_0000
    ensures CachedFrame(StateAt(Visit(0, p), |Visit(0, p)|), device, Version(p)) == p.plain
  {
    hide StateAt, Visit, CacheKey, Device, Version;
    AfterOnePacket(p);
    KeysCoincideIff(device, Version(p), Device(p), Version(p));
  }

  datatype Outcome =
    | Accepted(device: U64, isKeyframe: bool, version: U32, queue: nat)
    | MalformedPacket
    | DecryptionFailed
    | StorageError

  const QUEUES := 4

  /** The pipeline used by one caller at a time, with its history as a ghost. */
  class Pipeline {
    var frameCache: map<U64, seq<byte>>
    var messagesRouted: nat
    var totalPackets: nat
    var keyframeCount: nat
    var deltaCount: nat
    var totalBytes: nat
    var totalRequests: nat
    var cacheHits: nat
    ghost var events: seq<Event>

    function State(): Shared
      reads this
    {
      Shared(frameCache, messagesRouted, totalPackets, keyframeCount, deltaCount, totalBytes, totalRequests, cacheHits)
    }

    /** The fields are what the interleaved system holds after the packets so far. */
    ghost predicate Valid()
      reads this
    {
      History(events, State())
    }

    constructor ()
      ensures Valid() && events == [] && State() == INITIAL.shared
    {
      frameCache, messagesRouted, totalPackets, keyframeCount := map[], 0, 0, 0;
      deltaCount, totalBytes, totalRequests, cacheHits := 0, 0, 0, 0;
      events := [];
    }

    method ProcessPacket(p: Packet) returns (r: Outcome)
      requires Valid()
      modifies this
      ensures Valid()
      ensures events == old(events) + Visit(|StateAt(old(events), |old(events)|).tasks|, p)
      ensures State() == Handled(old(State()), p)
      ensures r.MalformedPacket? <==> |p.raw| < 12
      ensures r.DecryptionFailed? <==> |p.raw| >= 12 && p.plain.None?
      ensures r.StorageError? <==> |p.raw| >= 12 && p.plain.Some? && |p.plain.value| > 1 && p.plain.value[0] == 1
                                   && !p.stored
      ensures !r.Accepted? ==> State() == old(State())
      ensures r.Accepted? ==>
                && r.device
                   == p.raw[0] as nat + 0x100 * p.raw[1] as nat + 0x1_0000 * p.raw[2] as nat
                      + 0x100_0000 * p.raw[3] as nat + 0x1_0000_0000 * p.raw[4] as nat
                      + 0x100_0000_0000 * p.raw[5] as nat + 0x1_0000_0000_0000 * p.raw[6] as nat
                      + 0x100_0000_0000_0000 * p.raw[7] as nat
                && r.version
                   == p.raw[8] as nat + 0x100 * p.raw[9] as nat + 0x1_0000 * p.raw[10] as nat
                      + 0x100_0000 * p.raw[11] as nat
                && (r.isKeyframe <==> p.plain.value != [] && p.plain.value[0] == 1)
                && r.queue == r.version % 4
      ensures r.Accepted? ==>
                var key := 0x1_0000_0000 * (r.device % 0x1_0000_0000) + r.version;
                && frameCache == old(frameCache)[key := p.plain.value]
                && cacheHits == old(cacheHits) + (if key in old(frameCache) then 1 else 0)
      ensures r.Accepted? ==>
                && messagesRouted == old(messagesRouted) + 1
                && totalPackets == old(totalPackets) + 1
                && keyframeCount == old(keyframeCount) + (if r.isKeyframe then 1 else 0)
                && deltaCount == old(deltaCount) + (if r.isKeyframe then 0 else 1)
                && totalBytes == old(totalBytes) + |p.raw|
                && totalRequests == old(totalRequests) + 1
    {
      hide History, Visit, StateAt, Device, Version, Handled, CacheKey;
      if |p.raw| >= 12 {
        HeaderBytes(p);
        KeyMeans(Device(p), Version(p));
      }
      HandledMeans(State(), p);
      HandledExtends(events, State(), p);
      events := events + Visit(|StateAt(events, |events|).tasks|, p);
      if |p.raw| < 12 {
        return MalformedPacket;
      }
      var device, version := Device(p), Version(p);
      if p.plain.None? {
        return DecryptionFailed;
      }
      var decrypted := p.plain.value;
      var isKeyframe := |decrypted| > 0 && decrypted[0] == 1;
      if isKeyframe && |decrypted| > 1 && !p.stored {
        return StorageError;
      }
      var key := CacheKey(device, version);
      var cacheHit := key in frameCache;
      frameCache := frameCache[key := decrypted];
      messagesRouted := messagesRouted + 1;
      RecordPacket(|p.raw|, isKeyframe);
      totalRequests := totalRequests + 1;
      if cacheHit {
        cacheHits := cacheHits + 1;
      }
      r := Accepted(device, isKeyframe, version, version % QUEUES);
    }

    /** The telemetry's packet counters. */
    method RecordPacket(size: nat, isKeyframe: bool)
      modifies this`totalPackets, this`totalBytes, this`keyframeCount, this`deltaCount
      ensures totalPackets == old(totalPackets) + 1 && totalBytes == old(totalBytes) + size
      ensures keyframeCount == old(keyframeCount) + (if isKeyframe then 1 else 0)
      ensures deltaCount == old(deltaCount) + (if isKeyframe then 0 else 1)
    {
      totalPackets := totalPackets + 1;
      totalBytes := totalBytes + size;
      keyframeCount := keyframeCount + (if isKeyframe then 1 else 0);
      deltaCount := deltaCount + (if isKeyframe then 0 else 1);
    }
  }

  /** The whole effect of a packet, from its bytes. */
  lemma HandledMeans(sh: Shared, p: Packet)
    ensures var keyframe := p.plain.Some? && p.plain.value != [] && p.plain.value[0] == 1;
            var passes := |p.raw| >= 12 && p.plain.Some? && (keyframe && |p.plain.value| > 1 ==> p.stored);
            && (!passes ==> Handled(sh, p) == sh)
            && (passes ==>
                  var key := CacheKey(Device(p), Version(p));
                  Handled(sh, p) == Shared(
                    sh.cache[key := p.plain.value], sh.routed + 1, sh.packets + 1,
                    sh.keyframes + (if keyframe then 1 else 0), sh.deltas + (if keyframe then 0 else 1),
                    sh.bytes + |p.raw|, sh.requests + 1, sh.hits + (if key in sh.cache then 1 else 0)))
  {
    hide CacheKey, Device, Version;
  }
}
