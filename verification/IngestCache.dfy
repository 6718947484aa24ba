/**
 The frame cache under interleaving and eviction: how many lookups hit, and whose frame a lookup returns.
 */
module IngestCache {
  import opened Ingest
  import opened IngestCounters
  import opened LockOrder
  import opened Options
  import opened QueueBridge

  // ---------------------------------------------------------------------------------------------
  // Cache hits
  // ---------------------------------------------------------------------------------------------

  /** The cache key of a task's packet. */
  function KeyOf(t: Task): U64 {
    if t.job.Handle? && HasHeader(t.job.packet) then Key(t.job.packet) else 0
  }

  /** The keys of the tasks that have done `e`. */
  ghost function KeysDone(tasks: seq<Task>, e: Effect): set<U64> {
    set i | 0 <= i < |tasks| && Has(tasks[i], e) :: KeyOf(tasks[i])
  }

  ghost function LookupHit(t: Task): nat {
    if Has(t, GetFrame) && t.hit then 1 else 0
  }

  /** The next operation of `i` is a lookup that misses although its key was looked up before. */
  ghost predicate MissesAgain(s: System, i: nat) {
    CanRun(s, i) && i < |s.tasks| && s.tasks[i].pc < |ProgramOf(s.tasks[i].job)| && NextOp(s.tasks[i]) == Do(GetFrame)
    && KeyOf(s.tasks[i]) !in s.shared.cache && KeyOf(s.tasks[i]) in KeysDone(s.tasks, GetFrame)
  }

  ghost function RepeatMisses(events: seq<Event>, n: nat): nat
    requires n <= |events|
  {
    if n == 0 then 0
    else
      RepeatMisses(events, n - 1)
      + if events[n - 1].Run? && MissesAgain(StateAt(events, n - 1), events[n - 1].task) then 1 else 0
  }

  lemma KeysDoneOneMore(tasks: seq<Task>, job: Job, e: Effect)
    ensures KeysDone(tasks + [Task(job, 0, false)], e) == KeysDone(tasks, e)
  {
    var t := Task(job, 0, false);
    assert !Has(t, e);
    var more := tasks + [t];
    hide Has, KeyOf;
    forall k | k in KeysDone(tasks, e)
      ensures k in KeysDone(more, e)
    {
      var i :| 0 <= i < |tasks| && Has(tasks[i], e) && KeyOf(tasks[i]) == k;
      assert more[i] == tasks[i];
    }
  }

  lemma KeysDoneUpdate(tasks: seq<Task>, i: nat, u: Task, e: Effect)
    requires i < |tasks| && KeyOf(u) == KeyOf(tasks[i]) && (Has(tasks[i], e) ==> Has(u, e))
    ensures KeysDone(tasks[i := u], e) == KeysDone(tasks, e) + if Has(u, e) then {KeyOf(u)} else {}
  {
    hide Has, KeyOf;
    var after := tasks[i := u];
    forall k | k in KeysDone(tasks, e)
      ensures k in KeysDone(after, e)
    {
      var j :| 0 <= j < |tasks| && Has(tasks[j], e) && KeyOf(tasks[j]) == k;
      assert Has(after[j], e) && KeyOf(after[j]) == k;
    }
    if Has(u, e) {
      assert Has(after[i], e);
      assert KeyOf(u) in KeysDone(after, e);
    }
  }

  /** Nothing is in the cache that was not looked up before. */
  ghost predicate CacheIsUsed(s: System) {
    s.shared.cache.Keys <= KeysDone(s.tasks, PutFrame) <= KeysDone(s.tasks, GetFrame)
  }

  /** The lookups that are neither hits nor the first of their key. */
  ghost function Others(tasks: seq<Task>): int {
    Tally(tasks, Marks(GetFrame)) - Tally(tasks, LookupHit) - |KeysDone(tasks, GetFrame)|
  }

  /** Every lookup hits, is the first of its key, or misses again. */
  ghost predicate LookupsMean(s: System, repeats: nat) {
    Others(s.tasks) == repeats
  }

  lemma StoreFollowsLookup(t: Task)
    requires t.pc < |ProgramOf(t.job)| && NextOp(t) == Do(PutFrame)
    ensures Has(t, GetFrame) && t.job.Handle? && Passes(t.job.packet)
  {
    hide Has, Passes, Head;
    EffectAt(t.job, PutFrame, t.pc);
    HasIsPast(t, GetFrame);
  }

  lemma LookupStep(sh: Shared, t: Task)
    requires t.pc < |ProgramOf(t.job)|
    ensures var op := NextOp(t);
            var u := Advance(sh, t, op);
            && KeyOf(u) == KeyOf(t)
            && (Has(u, GetFrame) <==> Has(t, GetFrame) || op == Do(GetFrame))
            && (Has(u, PutFrame) <==> Has(t, PutFrame) || op == Do(PutFrame))
            && (op == Do(GetFrame) ==> !Has(t, GetFrame) && u.hit == (KeyOf(t) in sh.cache))
            && (op != Do(GetFrame) ==> u.hit == t.hit)
            && (op.Do? ==> Perform(sh, t, op.effect).cache
                           == if op == Do(PutFrame) then sh.cache[KeyOf(t) := t.job.packet.plain.value] else sh.cache)
            && (op == Do(PutFrame) ==> Has(t, GetFrame) && t.job.Handle? && Passes(t.job.packet))
  {
    hide Has, ProgramOf, Key, IsKeyframe;
    HasAfter(sh, t, GetFrame);
    HasAfter(sh, t, PutFrame);
    if NextOp(t) == Do(PutFrame) {
      StoreFollowsLookup(t);
    }
  }

  lemma {:induction false} LookupsAlwaysMean(events: seq<Event>, n: nat)
    requires n <= |events|
    ensures CacheIsUsed(StateAt(events, n)) && LookupsMean(StateAt(events, n), RepeatMisses(events, n))
  {
    hide CacheIsUsed, LookupsMean, MissesAgain, Apply;
    if n == 0 {
      NoLookupsYet();
    } else {
      LookupsAlwaysMean(events, n - 1);
      StepKeepsLookups(StateAt(events, n - 1), events[n - 1], RepeatMisses(events, n - 1));
    }
  }

  lemma NoLookupsYet()
    ensures CacheIsUsed(INITIAL) && LookupsMean(INITIAL, 0)
  {
    assert KeysDone([], GetFrame) == {};
  }

  lemma StepKeepsLookups(s: System, ev: Event, repeats: nat)
    requires CacheIsUsed(s) && LookupsMean(s, repeats)
    ensures CacheIsUsed(Apply(s, ev))
    ensures LookupsMean(Apply(s, ev), repeats + if ev.Run? && MissesAgain(s, ev.task) then 1 else 0)
  {
    hide CacheIsUsed, LookupsMean, MissesAgain, Apply;
    match ev
    case Evict(key) => EvictKeepsLookups(s, key, repeats);
    case Arrive(job) => ArriveKeepsLookups(s, job, repeats);
    case Run(i) =>
      RunKeepsCacheUsed(s, i);
      RunKeepsLookups(s, i, repeats);
  }

  lemma EvictKeepsLookups(s: System, key: U64, repeats: nat)
    requires CacheIsUsed(s) && LookupsMean(s, repeats)
    ensures CacheIsUsed(Apply(s, Evict(key))) && LookupsMean(Apply(s, Evict(key)), repeats)
  {
    hide Tally, Marks, KeysDone;
  }

  lemma ArriveKeepsLookups(s: System, job: Job, repeats: nat)
    requires CacheIsUsed(s) && LookupsMean(s, repeats)
    ensures CacheIsUsed(Apply(s, Arrive(job))) && LookupsMean(Apply(s, Arrive(job)), repeats)
  {
    var t := Task(job, 0, false);
    assert Marks(GetFrame)(t) == LookupHit(t) == 0;
    hide Tally, Marks, KeysDone, LookupHit;
    KeysDoneOneMore(s.tasks, job, GetFrame);
    KeysDoneOneMore(s.tasks, job, PutFrame);
    TallyOneMore(s.tasks, t, Marks(GetFrame));
    TallyOneMore(s.tasks, t, LookupHit);
  }

  lemma RunKeepsCacheUsed(s: System, i: nat)
    requires CacheIsUsed(s)
    ensures CacheIsUsed(Apply(s, Run(i)))
  {
    if !CanRun(s, i) {
      return;
    }
    InsideProgram(s, i);
    hide KeysDone, Perform, Advance, NextOp, CanRun, ProgramOf, KeyOf, Has;
    var t := s.tasks[i];
    var u := Advance(s.shared, t, NextOp(t));
    LookupStep(s.shared, t);
    KeysDoneUpdate(s.tasks, i, u, GetFrame);
    KeysDoneUpdate(s.tasks, i, u, PutFrame);
    if Has(u, PutFrame) {
      assert Has(t, PutFrame) || Has(t, GetFrame);
      KeysDoneHas(s.tasks, i, GetFrame);
      KeysDoneHas(s.tasks, i, PutFrame);
    }
  }

  lemma KeysDoneHas(tasks: seq<Task>, i: nat, e: Effect)
    requires i < |tasks|
    ensures Has(tasks[i], e) ==> KeyOf(tasks[i]) in KeysDone(tasks, e)
  {
    hide Has, KeyOf;
  }

  lemma RunKeepsLookups(s: System, i: nat, repeats: nat)
    requires CacheIsUsed(s) && LookupsMean(s, repeats)
    ensures LookupsMean(Apply(s, Run(i)), repeats + if MissesAgain(s, i) then 1 else 0)
  {
    if CanRun(s, i) {
      InsideProgram(s, i);
      var t := s.tasks[i];
      var u := Advance(s.shared, t, NextOp(t));
      LookupStep(s.shared, t);
      LookupsUpdate(s.tasks, i, u, s.shared.cache.Keys);
    }
  }

  /** Replacing one task, which may have done a lookup in a cache with these keys. */
  lemma LookupsUpdate(tasks: seq<Task>, i: nat, u: Task, cached: set<U64>)
    requires i < |tasks| && KeyOf(u) == KeyOf(tasks[i]) && cached <= KeysDone(tasks, GetFrame)
    requires Has(tasks[i], GetFrame) ==> Has(u, GetFrame) && u.hit == tasks[i].hit
    requires Has(u, GetFrame) && !Has(tasks[i], GetFrame) ==> u.hit == (KeyOf(u) in cached)
    ensures Others(tasks[i := u])
         == Others(tasks) + if Has(u, GetFrame) && !Has(tasks[i], GetFrame)
                               && KeyOf(u) !in cached && KeyOf(u) in KeysDone(tasks, GetFrame) then 1 else 0
  {
    hide Tally, KeysDone, KeyOf, Has;
    TallyUpdate(tasks, i, u, Marks(GetFrame));
    TallyUpdate(tasks, i, u, LookupHit);
    KeysDoneUpdate(tasks, i, u, GetFrame);
    KeysDoneHas(tasks, i, GetFrame);
    OneMoreKey(KeysDone(tasks, GetFrame), KeyOf(u));
    assert KeysDone(tasks, GetFrame) + {} == KeysDone(tasks, GetFrame);
  }

  lemma OneMoreKey(keys: set<U64>, key: U64)
    ensures |keys + {key}| == |keys| + if key in keys then 0 else 1
  {
    if key in keys {
      assert keys + {key} == keys;
    }
  }

  /** The distinct cache keys of the packets that were counted. */
  ghost function KeysUsed(tasks: seq<Task>): set<U64> {
    KeysDone(tasks, GetFrame)
  }

  /**
   Once no task is under way, every request was a hit, the first of its key, or a repeated miss; so the hits
   are at most the requests less the keys used, and exactly that many when no lookup missed again.
   */
  lemma HitAccounting(events: seq<Event>, n: nat)
    requires n <= |events| && AllFinished(StateAt(events, n).tasks)
    ensures var s := StateAt(events, n);
            && s.shared.requests == s.shared.hits + |KeysUsed(s.tasks)| + RepeatMisses(events, n)
            && s.shared.hits <= s.shared.requests - |KeysUsed(s.tasks)|
            && (s.shared.hits == s.shared.requests - |KeysUsed(s.tasks)| <==> RepeatMisses(events, n) == 0)
  {
    hide StateAt, RepeatMisses, Has, Tally, KeysDone, Finished, InProgram;
    var s := StateAt(events, n);
    CountersAlwaysMean(events, n);
    LookupsAlwaysMean(events, n);
    TasksStayInProgram(events, n);
    forall i | 0 <= i < |s.tasks|
      ensures Has(s.tasks[i], GetFrame) <==> Has(s.tasks[i], CountRequest)
    {
      assert InProgram(s.tasks[i]) && Finished(s.tasks[i]);
      DoneInOrder(s.tasks[i]);
    }
    TallySame(s.tasks, Marks(GetFrame), Marks(CountRequest));
    TallySame(s.tasks, LookupHit, HitMark);
  }

  // ---------------------------------------------------------------------------------------------
  // When no lookup misses again
  // ---------------------------------------------------------------------------------------------

  ghost predicate NoEviction(events: seq<Event>, n: nat)
    requires n <= |events|
  {
    forall k :: 0 <= k < n ==> !events[k].Evict?
  }

  /** Without evictions, every stored frame's key stays in the cache. */
  lemma {:induction false} StoredStays(events: seq<Event>, n: nat)
    requires n <= |events| && NoEviction(events, n)
    ensures KeysDone(StateAt(events, n).tasks, PutFrame) <= StateAt(events, n).shared.cache.Keys
  {
    hide KeysDone, Apply;
    if n == 0 {
      NoKeysYet();
    } else {
      StoredStays(events, n - 1);
      StepKeepsStored(StateAt(events, n - 1), events[n - 1]);
    }
  }

  lemma NoKeysYet()
    ensures KeysDone([], PutFrame) == {}
  {
  }

  lemma StepKeepsStored(s: System, ev: Event)
    requires !ev.Evict? && KeysDone(s.tasks, PutFrame) <= s.shared.cache.Keys
    ensures KeysDone(Apply(s, ev).tasks, PutFrame) <= Apply(s, ev).shared.cache.Keys
  {
    hide KeysDone, KeyOf, Perform, Has, CanRun, ProgramOf, Advance, NextOp;
    if ev.Arrive? {
      KeysDoneOneMore(s.tasks, ev.job, PutFrame);
    } else if CanRun(s, ev.task) {
      InsideProgram(s, ev.task);
      var t := s.tasks[ev.task];
      LookupStep(s.shared, t);
      KeysDoneUpdate(s.tasks, ev.task, Advance(s.shared, t, NextOp(t)), PutFrame);
      KeysDoneHas(s.tasks, ev.task, PutFrame);
    }
  }

  /** Without evictions, a lookup misses again only while another task is between its lookup and its store. */
  lemma RepeatedMissIsARace(events: seq<Event>, n: nat, i: nat)
    requires n <= |events| && NoEviction(events, n) && MissesAgain(StateAt(events, n), i)
    ensures var s := StateAt(events, n);
            exists j :: 0 <= j < |s.tasks| && j != i && i < |s.tasks| && KeyOf(s.tasks[j]) == KeyOf(s.tasks[i])
                        && Has(s.tasks[j], GetFrame) && !Has(s.tasks[j], PutFrame)
  {
    var s := StateAt(events, n);
    StoredStays(events, n);
    assert i < |s.tasks| && s.tasks[i].pc < |ProgramOf(s.tasks[i].job)|;
    HasAfter(s.shared, s.tasks[i], GetFrame);
    hide KeyOf, Has, ProgramOf, CanRun;
    var j :| 0 <= j < |s.tasks| && Has(s.tasks[j], GetFrame) && KeyOf(s.tasks[j]) == KeyOf(s.tasks[i]);
    KeysDoneHas(s.tasks, j, PutFrame);
  }

  /** Each task runs only while every other is finished or has not begun. */
  ghost predicate Sequential(events: seq<Event>, n: nat)
    requires n <= |events|
  {
    forall k :: 0 <= k < n && events[k].Run? ==> OthersRest(StateAt(events, k), events[k].task)
  }

  ghost predicate OthersRest(s: System, i: nat) {
    forall j :: 0 <= j < |s.tasks| && j != i ==> s.tasks[j].pc == 0 || Finished(s.tasks[j])
  }

  lemma RestersDoNotRace(events: seq<Event>, n: nat, i: nat)
    requires n <= |events| && NoEviction(events, n) && OthersRest(StateAt(events, n), i)
    ensures !MissesAgain(StateAt(events, n), i)
  {
    hide StateAt, ProgramOf, KeysDone, KeyOf, CanRun, MissesAgain;
    var s := StateAt(events, n);
    if MissesAgain(s, i) {
      RepeatedMissIsARace(events, n, i);
      var j :| 0 <= j < |s.tasks| && j != i && Has(s.tasks[j], GetFrame) && !Has(s.tasks[j], PutFrame);
      TasksStayInProgram(events, n);
      DoneInOrder(s.tasks[j]);
    }
  }

  lemma {:induction false} SequentialNeverMissesAgain(events: seq<Event>, n: nat)
    requires n <= |events| && Sequential(events, n) && NoEviction(events, n)
    ensures RepeatMisses(events, n) == 0
  {
    hide StateAt, MissesAgain, OthersRest;
    if n > 0 {
      SequentialNeverMissesAgain(events, n - 1);
      if events[n - 1].Run? {
        RestersDoNotRace(events, n - 1, events[n - 1].task);
      }
    }
  }

  /** One packet after the other and no eviction: all but the first packet of each key are hits. */
  lemma SequentialHits(events: seq<Event>, n: nat)
    requires n <= |events| && Sequential(events, n) && NoEviction(events, n)
    requires AllFinished(StateAt(events, n).tasks)
    ensures StateAt(events, n).shared.hits == StateAt(events, n).shared.requests - |KeysUsed(StateAt(events, n).tasks)|
  {
    HitAccounting(events, n);
    SequentialNeverMissesAgain(events, n);
  }

  // ---------------------------------------------------------------------------------------------
  // Whose frame is cached
  // ---------------------------------------------------------------------------------------------

  function CachedFrame(s: System, device: U64, version: U32): Option<seq<byte>> {
    var key := CacheKey(device, version);
    if key in s.shared.cache then Some(s.shared.cache[key]) else None
  }

  /** The event stores a frame under the key. */
  predicate Stores(s: System, ev: Event, key: U64) {
    && ev.Run? && CanRun(s, ev.task) && ev.task < |s.tasks|
    && var t := s.tasks[ev.task];
       && t.pc < |ProgramOf(t.job)| && NextOp(t) == Do(PutFrame)
       && t.job.Handle? && Passes(t.job.packet) && Key(t.job.packet) == key
  }

  /** The packet whose frame was stored last under the key. */
  function LastStored(events: seq<Event>, n: nat, key: U64): Option<Packet>
    requires n <= |events|
  {
    if n == 0 then None
    else
      var s := StateAt(events, n - 1);
      if Stores(s, events[n - 1], key) then Some(s.tasks[events[n - 1].task].job.packet)
      else LastStored(events, n - 1, key)
  }

  lemma StoresIff(s: System, i: nat, key: U64)
    requires CanRun(s, i)
    ensures i < |s.tasks| && s.tasks[i].pc < |ProgramOf(s.tasks[i].job)|
    ensures var t := s.tasks[i];
            && (NextOp(t) == Do(PutFrame) ==> t.job.Handle? && t.job.packet.plain.Some?)
            && (Stores(s, Run(i), key) <==> NextOp(t) == Do(PutFrame) && KeyOf(t) == key)
  {
    hide Has, CanRun, Advance, ProgramOf, Perform, Key;
    InsideProgram(s, i);
    LookupStep(s.shared, s.tasks[i]);
  }

  lemma NothingStored(s: System, ev: Event, key: U64)
    requires ev.Run? ==> !CanRun(s, ev.task)
    ensures !Stores(s, ev, key)
  {
  }

  lemma StepStores(s: System, ev: Event, key: U64)
    ensures Stores(s, ev, key) ==>
              ev.Run? && ev.task < |s.tasks| && s.tasks[ev.task].job.Handle? && s.tasks[ev.task].job.packet.plain.Some?
    ensures var cache := Apply(s, ev).shared.cache;
            && (Stores(s, ev, key) ==> key in cache && cache[key] == s.tasks[ev.task].job.packet.plain.value)
            && (!Stores(s, ev, key) && key in cache ==> key in s.shared.cache && cache[key] == s.shared.cache[key])
            && (key in s.shared.cache && ev != Evict(key) ==> key in cache)
  {
    hide Has, CanRun, Advance, ProgramOf, Perform, Passes, Stores, KeyOf, NextOp;
    if ev.Run? && CanRun(s, ev.task) {
      StoresIff(s, ev.task, key);
      LookupStep(s.shared, s.tasks[ev.task]);
    } else {
      NothingStored(s, ev, key);
    }
  }

  /** What is cached is the last frame stored under that key; only an eviction of that key can remove it. */
  lemma {:induction false} CachedIsLastStored(events: seq<Event>, n: nat, key: U64)
    requires n <= |events|
    ensures var cache, last := StateAt(events, n).shared.cache, LastStored(events, n, key);
            && (key in cache ==> last.Some? && last.value.plain == Some(cache[key]))
            && ((forall k :: 0 <= k < n ==> events[k] != Evict(key)) ==> (last.Some? <==> key in cache))
  {
    if n > 0 {
      CachedIsLastStored(events, n - 1, key);
      StepStores(StateAt(events, n - 1), events[n - 1], key);
      hide Apply, CanRun, ProgramOf, Key;
    }
  }

  lemma {:induction false} LastStoredIsOfKey(events: seq<Event>, n: nat, key: U64)
    requires n <= |events| && LastStored(events, n, key).Some?
    ensures var p := LastStored(events, n, key).value; HasHeader(p) && p.plain.Some? && Key(p) == key
  {
    hide Apply, CanRun, ProgramOf, Key;
    var s := StateAt(events, n - 1);
    if !Stores(s, events[n - 1], key) {
      LastStoredIsOfKey(events, n - 1, key);
    }
  }

  /**
   The frame returned for a device and a version is the one stored last by a packet of that version from a
   device that agrees modulo 2^32, not necessarily from the device itself.
   */
  lemma CachedFrameOwner(events: seq<Event>, n: nat, device: U64, version: U32)
    requires n <= |events| && CachedFrame(StateAt(events, n), device, version).Some?
    ensures var last := LastStored(events, n, CacheKey(device, version));
            && last.Some? && HasHeader(last.value)
            && last.value.plain == CachedFrame(StateAt(events, n), device, version)
            && Version(last.value) == version
            && Device(last.value) % 0x1_0000_0000 == device % 0x1_0000_0000
  {
    hide StateAt, Device, Version, LastStored, CacheKey;
    var key := CacheKey(device, version);
    CachedIsLastStored(events, n, key);
    LastStoredIsOfKey(events, n, key);
    var p := LastStored(events, n, key).value;
    KeysCoincideIff(Device(p), Version(p), device, version);
  }
}
