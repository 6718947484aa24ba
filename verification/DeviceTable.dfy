/**
 The per-device table of token buckets: created on first use, removed on request, purged when idle.
 The purge turns out to be invisible to every device exactly when the idle threshold is long enough to
 refill a bucket completely.
 */
module DeviceTable {
  import opened TokenBucket

  type DeviceId = nat

  datatype Op =
    | Acquire(device: DeviceId, now: real)
    | Remove(device: DeviceId)
    | Purge(now: real, threshold: real)

  /** What the fields of the table hold. */
  datatype Table = Table(limiters: map<DeviceId, Bucket>, rejected: nat)

  const EMPTY := Table(map[], 0)

  /** The bucket a request of `d` is judged by: its own, or a full one made for it. */
  function BucketFor(c: Config, t: Table, d: DeviceId, now: real): Bucket {
    if d in t.limiters then t.limiters[d] else Fresh(c, now)
  }

  /** The buckets whose last call is less than `threshold` old. */
  function Active(buckets: map<DeviceId, Bucket>, now: real, threshold: real): map<DeviceId, Bucket> {
    map d | d in buckets && now - buckets[d].lastUpdate < threshold :: buckets[d]
  }

  function Idle(buckets: map<DeviceId, Bucket>, now: real, threshold: real): set<DeviceId> {
    set d | d in buckets && now - buckets[d].lastUpdate >= threshold
  }

  lemma ActiveOrIdle(buckets: map<DeviceId, Bucket>, now: real, threshold: real)
    ensures |buckets| == |Active(buckets, now, threshold)| + |Idle(buckets, now, threshold)|
  {
    var active, idle := Active(buckets, now, threshold).Keys, Idle(buckets, now, threshold);
    assert buckets.Keys == active + idle && active !! idle;
  }

  function Apply(c: Config, t: Table, op: Op): Table {
    match op
    case Acquire(d, now) =>
      var b := BucketFor(c, t, d, now);
      var ok := Grants(c, b, now);
      Table(t.limiters[d := Serve(c, b, now, ok)], if ok then t.rejected else t.rejected + 1)
    case Remove(d) =>
      t.(limiters := t.limiters - {d})
    case Purge(now, threshold) =>
      t.(limiters := Active(t.limiters, now, threshold))
  }

  /** A request, spelled out: a device without a bucket gets a full one, and no other bucket changes. */
  lemma AcquireMeans(c: Config, t: Table, d: DeviceId, now: real)
    ensures var after := Apply(c, t, Acquire(d, now));
            var b := if d in t.limiters then t.limiters[d] else Bucket(c.burstSize as real, now);
            var earned := if now > b.lastUpdate then (now - b.lastUpdate) * c.requestsPerSecond else 0.0;
            var full := c.burstSize as real;
            var there := if b.tokens + earned <= full then b.tokens + earned else full;
            && after.limiters == t.limiters[d := Bucket(if there >= 1.0 then there - 1.0 else there, now)]
            && after.rejected == t.rejected + if there >= 1.0 then 0 else 1
  {
    hide Grants, Serve, Refill, Active;
    var b := if d in t.limiters then t.limiters[d] else Bucket(c.burstSize as real, now);
    assert b == BucketFor(c, t, d, now);
    CallMeans(c, b, now, Grants(c, b, now));
  }

  /** A purge, spelled out: the age of the last call decides alone. */
  lemma PurgeMeans(c: Config, t: Table, now: real, threshold: real)
    ensures var after := Apply(c, t, Purge(now, threshold));
            && after.rejected == t.rejected
            && (forall d :: d in after.limiters <==>
                  d in t.limiters && now - t.limiters[d].lastUpdate < threshold)
            && (forall d :: d in after.limiters ==> after.limiters[d] == t.limiters[d])
            && |Idle(t.limiters, now, threshold)| == |t.limiters| - |after.limiters|
  {
    ActiveOrIdle(t.limiters, now, threshold);
  }

  /** The table after the first `n` operations on an empty one. */
  ghost function TableAfter(c: Config, ops: seq<Op>, n: nat): Table
    requires n <= |ops|
  {
    if n == 0 then EMPTY else Apply(c, TableAfter(c, ops, n - 1), ops[n - 1])
  }

  /** The table's answer to request `i`. */
  ghost predicate Decision(c: Config, ops: seq<Op>, i: nat)
    requires i < |ops| && ops[i].Acquire?
  {
    Grants(c, BucketFor(c, TableAfter(c, ops, i), ops[i].device, ops[i].now), ops[i].now)
  }

  // ---------------------------------------------------------------------------------------------
  // The reference: one limiter that sees only one device's calls
  // ---------------------------------------------------------------------------------------------

  /** The call times of `d` among the first `n` operations, since it was last removed. */
  ghost function CallsOf(ops: seq<Op>, d: DeviceId, n: nat): seq<real>
    requires n <= |ops|
  {
    if n == 0 then []
    else
      var before := CallsOf(ops, d, n - 1);
      match ops[n - 1]
      case Acquire(e, now) => if e == d then before + [now] else before
      case Remove(e) => if e == d then [] else before
      case Purge(_, _) => before
  }

  /** A limiter created at the first of `times` and asked at each of them. */
  ghost function Standalone(c: Config, times: seq<real>): Bucket
    requires |times| > 0
    decreases |times|, 1
  {
    var b := StandaloneBefore(c, times);
    Serve(c, b, times[|times| - 1], Grants(c, b, times[|times| - 1]))
  }

  ghost function StandaloneBefore(c: Config, times: seq<real>): Bucket
    requires |times| > 0
    decreases |times|, 0
  {
    if |times| == 1 then Fresh(c, times[0]) else Standalone(c, times[..|times| - 1])
  }

  /** The standalone limiter's answer to the last of `times`. */
  ghost predicate StandaloneDecision(c: Config, times: seq<real>)
    requires |times| > 0
  {
    Grants(c, StandaloneBefore(c, times), times[|times| - 1])
  }

  /** The standalone limiter is the single-device limiter of `TokenBucket`, so its laws apply to every device. */
  lemma {:induction false} StandaloneIsLimiter(c: Config, times: seq<real>) returns (run: Run)
    requires |times| > 0
    ensures run.Valid() && Greedy(c, run) && run.start == times[0] && run.times == times
    ensures After(c, run, |times|) == Standalone(c, times)
    ensures forall i :: 0 <= i < |times| ==> run.took[i] == StandaloneDecision(c, times[..i + 1])
  {
    hide Greedy, Serve, Grants, StandaloneDecision;
    var last := |times| - 1;
    var before := Run(times[0], [], []);
    if last > 0 {
      before := StandaloneIsLimiter(c, times[..last]);
    } else {
      assert Greedy(c, before) by { EmptyIsGreedy(c, before); }
    }
    var take := Grants(c, StandaloneBefore(c, times), times[last]);
    ExtendGreedy(c, before, times[last], take);
    run := before.Extend(times[last], take);
    assert run.times == times;
    LastDecision(c, times);
    DecisionsExtend(c, times, before.took, take);
  }

  lemma DecisionsExtend(c: Config, times: seq<real>, took: seq<bool>, take: bool)
    requires |times| == |took| + 1 && take == StandaloneDecision(c, times)
    requires forall i :: 0 <= i < |took| ==> took[i] == StandaloneDecision(c, times[..|took|][..i + 1])
    ensures forall i :: 0 <= i < |times| ==> (took + [take])[i] == StandaloneDecision(c, times[..i + 1])
  {
    hide StandaloneDecision;
    forall i | 0 <= i < |times|
      ensures (took + [take])[i] == StandaloneDecision(c, times[..i + 1])
    {
      if i < |took| {
        assert times[..|took|][..i + 1] == times[..i + 1];
      } else {
        assert times[..i + 1] == times;
      }
    }
  }

  lemma LastDecision(c: Config, times: seq<real>)
    requires |times| > 0
    ensures StandaloneDecision(c, times) == Grants(c, StandaloneBefore(c, times), times[|times| - 1])
  {
  }

  lemma EmptyIsGreedy(c: Config, run: Run)
    requires run.times == [] && run.took == []
    ensures Greedy(c, run)
  {
  }

  // ---------------------------------------------------------------------------------------------
  // Runs with a clock that does not go back and purges that only take full buckets
  // ---------------------------------------------------------------------------------------------

  /** The latest clock reading among the first `n` operations, and `low` before any. */
  ghost function ClockAfter(ops: seq<Op>, low: real, n: nat): real
    requires n <= |ops|
  {
    if n == 0 then low else if ops[n - 1].Remove? then ClockAfter(ops, low, n - 1) else ops[n - 1].now
  }

  ghost predicate MonotoneClock(ops: seq<Op>, low: real) {
    forall i :: 0 <= i < |ops| && !ops[i].Remove? ==> ClockAfter(ops, low, i) <= ops[i].now
  }

  ghost predicate RefillsWithin(c: Config, threshold: real) {
    threshold * c.requestsPerSecond >= c.burstSize as real
  }

  ghost predicate PurgesOnlyFull(c: Config, ops: seq<Op>) {
    forall i :: 0 <= i < |ops| && ops[i].Purge? ==> c.burstSize == 0 || RefillsWithin(c, ops[i].threshold)
  }

  /** A bucket that any later call finds full. */
  ghost predicate FullFrom(c: Config, b: Bucket, now: real) {
    && b.lastUpdate <= now
    && b.tokens + (now - b.lastUpdate) * c.requestsPerSecond >= c.burstSize as real
  }

  lemma FullFromLater(c: Config, b: Bucket, now: real, later: real)
    requires c.requestsPerSecond >= 0.0 && FullFrom(c, b, now) && now <= later
    ensures FullFrom(c, b, later)
    ensures Refill(c, b, later) == Refill(c, Fresh(c, later), later)
  {
    assert (later - now) * c.requestsPerSecond >= 0.0;
    assert (later - b.lastUpdate) * c.requestsPerSecond
        == (now - b.lastUpdate) * c.requestsPerSecond + (later - now) * c.requestsPerSecond;
  }

  /** Where the table and the standalone limiter of `d` stand after the same operations. */
  ghost predicate Agree(c: Config, t: Table, calls: seq<real>, d: DeviceId, clock: real) {
    if calls == [] then
      d !in t.limiters
    else
      var b := Standalone(c, calls);
      && 0.0 <= b.tokens
      && b.lastUpdate <= clock
      && (if d in t.limiters then t.limiters[d] == b else FullFrom(c, b, clock))
  }

  /** A purge that spares no idle bucket too long takes only full ones. */
  lemma IdleIsFull(c: Config, b: Bucket, now: real, threshold: real)
    requires c.requestsPerSecond >= 0.0 && 0.0 <= b.tokens && b.lastUpdate <= now
    requires now - b.lastUpdate >= threshold
    requires c.burstSize == 0 || RefillsWithin(c, threshold)
    ensures FullFrom(c, b, now)
  {
    assert (now - b.lastUpdate) * c.requestsPerSecond >= 0.0;
    assert (now - b.lastUpdate - threshold) * c.requestsPerSecond >= 0.0;
  }

  lemma ServeKeepsTokens(c: Config, b: Bucket, now: real)
    requires c.requestsPerSecond >= 0.0 && 0.0 <= b.tokens
    ensures 0.0 <= Serve(c, b, now, Grants(c, b, now)).tokens
    ensures Serve(c, b, now, Grants(c, b, now)).lastUpdate == now
  {
    assert Forward(b.lastUpdate, now) * c.requestsPerSecond >= 0.0;
  }

  /** A request is judged by the table as by the standalone limiter. */
  lemma AgreeDecides(c: Config, t: Table, calls: seq<real>, d: DeviceId, clock: real, now: real)
    requires c.requestsPerSecond >= 0.0 && clock <= now && Agree(c, t, calls, d, clock)
    ensures Refill(c, BucketFor(c, t, d, now), now) == Refill(c, StandaloneBefore(c, calls + [now]), now)
    ensures 0.0 <= StandaloneBefore(c, calls + [now]).tokens
  {
    hide Refill;
    assert (calls + [now])[..|calls|] == calls;
    if calls != [] && d !in t.limiters {
      FullFromLater(c, Standalone(c, calls), clock, now);
    }
  }

  lemma AgreeStep(c: Config, t: Table, ops: seq<Op>, d: DeviceId, low: real, n: nat)
    requires c.requestsPerSecond >= 0.0 && n < |ops|
    requires MonotoneClock(ops, low) && PurgesOnlyFull(c, ops)
    requires Agree(c, t, CallsOf(ops, d, n), d, ClockAfter(ops, low, n))
    ensures Agree(c, Apply(c, t, ops[n]), CallsOf(ops, d, n + 1), d, ClockAfter(ops, low, n + 1))
  {
    hide Refill, FullFrom;
    var calls, clock := CallsOf(ops, d, n), ClockAfter(ops, low, n);
    match ops[n]
    case Remove(e) =>
    case Acquire(e, now) =>
      assert clock <= now;
      if e == d {
        AgreeDecides(c, t, calls, d, clock, now);
        ServeKeepsTokens(c, StandaloneBefore(c, calls + [now]), now);
      } else if calls != [] && d !in t.limiters {
        FullFromLater(c, Standalone(c, calls), clock, now);
      }
    case Purge(now, threshold) =>
      assert clock <= now;
      if calls != [] {
        var b := Standalone(c, calls);
        if d !in t.limiters {
          FullFromLater(c, b, clock, now);
        } else if now - b.lastUpdate >= threshold {
          IdleIsFull(c, b, now, threshold);
        }
      }
  }

  lemma {:induction false} AgreeAlways(c: Config, ops: seq<Op>, d: DeviceId, low: real, n: nat)
    requires c.requestsPerSecond >= 0.0 && n <= |ops|
    requires MonotoneClock(ops, low) && PurgesOnlyFull(c, ops)
    ensures Agree(c, TableAfter(c, ops, n), CallsOf(ops, d, n), d, ClockAfter(ops, low, n))
  {
    if n > 0 {
      AgreeAlways(c, ops, d, low, n - 1);
      AgreeStep(c, TableAfter(c, ops, n - 1), ops, d, low, n - 1);
    }
  }

  /** Isolation: every request is answered as by a limiter that saw only that device's calls since its removal. */
  lemma Isolation(c: Config, ops: seq<Op>, low: real, i: nat)
    requires c.requestsPerSecond >= 0.0 && i < |ops| && ops[i].Acquire?
    requires MonotoneClock(ops, low) && PurgesOnlyFull(c, ops)
    ensures Decision(c, ops, i) <==> StandaloneDecision(c, CallsOf(ops, ops[i].device, i + 1))
  {
    var d, now := ops[i].device, ops[i].now;
    AgreeAlways(c, ops, d, low, i);
    AgreeDecides(c, TableAfter(c, ops, i), CallsOf(ops, d, i), d, ClockAfter(ops, low, i), now);
  }

  // ---------------------------------------------------------------------------------------------
  // The rejection counter
  // ---------------------------------------------------------------------------------------------

  /** Requests of `d` among the first `n` operations that its standalone limiter rejects. */
  ghost function RejectionsOf(c: Config, ops: seq<Op>, d: DeviceId, n: nat): nat
    requires n <= |ops|
  {
    if n == 0 then 0
    else
      RejectionsOf(c, ops, d, n - 1)
      + (if ops[n - 1].Acquire? && ops[n - 1].device == d && !StandaloneDecision(c, CallsOf(ops, d, n)) then 1 else 0)
  }

  ghost function TotalRejections(c: Config, ops: seq<Op>, ds: set<DeviceId>, n: nat): nat
    requires n <= |ops|
  {
    if ds == {} then 0
    else
      var d :| d in ds;
      RejectionsOf(c, ops, d, n) + TotalRejections(c, ops, ds - {d}, n)
  }

  lemma {:induction false} TotalPicks(c: Config, ops: seq<Op>, ds: set<DeviceId>, n: nat, e: DeviceId)
    requires n <= |ops| && e in ds
    ensures TotalRejections(c, ops, ds, n) == RejectionsOf(c, ops, e, n) + TotalRejections(c, ops, ds - {e}, n)
  {
    hide RejectionsOf;
    var d :| d in ds
      && TotalRejections(c, ops, ds, n) == RejectionsOf(c, ops, d, n) + TotalRejections(c, ops, ds - {d}, n);
    if d != e {
      TotalPicks(c, ops, ds - {d}, n, e);
      TotalPicks(c, ops, ds - {e}, n, d);
      assert ds - {d} - {e} == ds - {e} - {d};
    }
  }

  /** Another operation leaves the rejections of devices it does not reject as they were. */
  lemma {:induction false} TotalUnchanged(c: Config, ops: seq<Op>, ds: set<DeviceId>, n: nat)
    requires n < |ops|
    requires forall d :: d in ds ==> RejectionsOf(c, ops, d, n + 1) == RejectionsOf(c, ops, d, n)
    ensures TotalRejections(c, ops, ds, n + 1) == TotalRejections(c, ops, ds, n)
  {
    hide RejectionsOf;
    if ds != {} {
      var d :| d in ds;
      TotalUnchanged(c, ops, ds - {d}, n);
      TotalPicks(c, ops, ds, n, d);
      TotalPicks(c, ops, ds, n + 1, d);
    }
  }

  /** Conservation: the counter is the sum of all devices' rejections. */
  lemma {:induction false} RejectedIsSum(c: Config, ops: seq<Op>, ds: set<DeviceId>, low: real, n: nat)
    requires c.requestsPerSecond >= 0.0 && n <= |ops|
    requires MonotoneClock(ops, low) && PurgesOnlyFull(c, ops)
    requires forall i :: 0 <= i < |ops| && ops[i].Acquire? ==> ops[i].device in ds
    ensures TableAfter(c, ops, n).rejected == TotalRejections(c, ops, ds, n)
  {
    hide TableAfter, Decision, StandaloneDecision, CallsOf, TotalRejections, MonotoneClock, PurgesOnlyFull, Apply;
    if n == 0 {
      NothingRejected(c, ops, ds);
    } else {
      RejectedIsSum(c, ops, ds, low, n - 1);
      RejectedStep(c, ops, n);
      var op := ops[n - 1];
      if op.Acquire? {
        Isolation(c, ops, low, n - 1);
        TotalPicks(c, ops, ds, n - 1, op.device);
        TotalPicks(c, ops, ds, n, op.device);
        TotalUnchanged(c, ops, ds - {op.device}, n - 1);
      } else {
        TotalUnchanged(c, ops, ds, n - 1);
      }
    }
  }

  lemma RejectedStep(c: Config, ops: seq<Op>, n: nat)
    requires 0 < n <= |ops|
    ensures TableAfter(c, ops, n).rejected
         == TableAfter(c, ops, n - 1).rejected + if ops[n - 1].Acquire? && !Decision(c, ops, n - 1) then 1 else 0
  {
    hide Grants, Serve, Active;
  }

  lemma {:induction false} NothingRejected(c: Config, ops: seq<Op>, ds: set<DeviceId>)
    ensures TableAfter(c, ops, 0).rejected == TotalRejections(c, ops, ds, 0) == 0
  {
    if ds != {} {
      var d :| d in ds;
      TotalPicks(c, ops, ds, 0, d);
      NothingRejected(c, ops, ds - {d});
    }
  }

  // ---------------------------------------------------------------------------------------------
  // Exactly which purges are invisible
  // ---------------------------------------------------------------------------------------------

  /** No run whose purges all use `threshold` lets a device notice them. */
  ghost predicate Invisible(c: Config, threshold: real) {
    forall ops: seq<Op>, low: real, i: nat ::
      i < |ops| && ops[i].Acquire? && MonotoneClock(ops, low)
      && (forall k :: 0 <= k < |ops| && ops[k].Purge? ==> ops[k].threshold == threshold)
      ==> (Decision(c, ops, i) <==> StandaloneDecision(c, CallsOf(ops, ops[i].device, i + 1)))
  }

  ghost function Repeat(op: Op, n: nat): seq<Op> {
    seq(n, _ => op)
  }

  /** Drain a bucket, purge it while idle, drain it again. */
  ghost function DrainPurgeDrain(c: Config, threshold: real): seq<Op> {
    var w := if threshold >= 0.0 then threshold else 0.0;
    Repeat(Acquire(0, 0.0), c.burstSize) + [Purge(w, threshold)] + Repeat(Acquire(0, w), c.burstSize)
  }

  lemma {:induction false} DrainedByTable(c: Config, threshold: real, n: nat)
    requires c.requestsPerSecond >= 0.0 && n <= 2 * c.burstSize + 1
    ensures var ops, t := DrainPurgeDrain(c, threshold), TableAfter(c, DrainPurgeDrain(c, threshold), n);
            && (n == 0 || n == c.burstSize + 1 ==> t.limiters == map[])
            && (0 < n <= c.burstSize ==> t.limiters == map[0 := Bucket((c.burstSize - n) as real, 0.0)])
            && (n > c.burstSize + 1 ==>
                  t.limiters == map[0 := Bucket((2 * c.burstSize + 1 - n) as real, ops[c.burstSize].now)])
            && (n > 0 && n != c.burstSize + 1 ==> Decision(c, ops, n - 1))
  {
    var ops := DrainPurgeDrain(c, threshold);
    if n > 0 {
      DrainedByTable(c, threshold, n - 1);
      if n != c.burstSize + 1 {
        var now := if n <= c.burstSize then 0.0 else ops[c.burstSize].now;
        assert ops[n - 1] == Acquire(0, now);
        assert Gain(c, now, now) == 0.0;
      } else {
        assert ops[n - 1].Purge?;
      }
    }
  }

  ghost function DrainTimes(c: Config, threshold: real): (times: seq<real>)
    ensures |times| == 2 * c.burstSize
  {
    var w := if threshold >= 0.0 then threshold else 0.0;
    seq(2 * c.burstSize, i => if i < c.burstSize then 0.0 else w)
  }

  lemma {:induction false} DrainCalls(c: Config, threshold: real, n: nat)
    requires n <= 2 * c.burstSize + 1
    ensures CallsOf(DrainPurgeDrain(c, threshold), 0, n)
         == DrainTimes(c, threshold)[..if n <= c.burstSize then n else n - 1]
  {
    if n > 0 {
      DrainCalls(c, threshold, n - 1);
      var ops, times := DrainPurgeDrain(c, threshold), DrainTimes(c, threshold);
      if n != c.burstSize + 1 {
        var k := if n <= c.burstSize then n - 1 else n - 2;
        assert ops[n - 1] == Acquire(0, times[k]);
        assert times[..k] + [times[k]] == times[..k + 1];
      } else {
        assert ops[n - 1].Purge?;
      }
    }
  }

  lemma {:induction false} DrainClock(run: Run, b: nat, k: nat)
    requires k < |run.times| && run.start == run.times[0] == 0.0
    requires forall i :: 0 <= i < |run.times| ==> run.times[i] == (if i < b then 0.0 else run.times[|run.times| - 1])
    requires run.times[|run.times| - 1] >= 0.0
    ensures Clock(run, k) == run.times[k]
  {
    if k > 0 {
      DrainClock(run, b, k - 1);
    }
  }

  /** A limiter that is granted every call has a rate that earns a whole burst in the idle time. */
  lemma AllGrantedIsEarned(c: Config, threshold: real, run: Run)
    requires c.requestsPerSecond >= 0.0 && c.burstSize > 0
    requires run.Valid() && Greedy(c, run) && run.start == 0.0 && run.times == DrainTimes(c, threshold)
    requires forall i :: 0 <= i < |run.took| ==> run.took[i]
    ensures RefillsWithin(c, threshold)
  {
    hide Greedy, Clock, Taken;
    var last := 2 * c.burstSize - 1;
    SlidingWindowLaw(c, run, last);
    AllTaken(run, last);
    DrainClock(run, c.burstSize, 0);
    DrainClock(run, c.burstSize, last);
    assert (1 + Taken(run, 0, last)) as real <= Allowance(c, run, 0, last);
  }

  lemma {:induction false} AllTaken(run: Run, n: nat)
    requires run.Valid() && n <= |run.took| && forall i :: 0 <= i < |run.took| ==> run.took[i]
    ensures Taken(run, 0, n) == n
  {
    if n > 0 {
      AllTaken(run, n - 1);
    }
  }

  lemma InvisibleAt(c: Config, threshold: real, ops: seq<Op>, low: real, i: nat)
    requires Invisible(c, threshold) && i < |ops| && ops[i].Acquire? && MonotoneClock(ops, low)
    requires forall k :: 0 <= k < |ops| && ops[k].Purge? ==> ops[k].threshold == threshold
    ensures Decision(c, ops, i) <==> StandaloneDecision(c, CallsOf(ops, ops[i].device, i + 1))
  {
    hide MonotoneClock, Decision, StandaloneDecision, CallsOf;
  }

  /** The table grants every request of the drain, purge, drain run; an equal standalone limiter then does too. */
  lemma InvisibleGrants(c: Config, threshold: real, i: nat)
    requires c.requestsPerSecond >= 0.0 && c.burstSize > 0 && Invisible(c, threshold) && i < 2 * c.burstSize
    ensures StandaloneDecision(c, DrainTimes(c, threshold)[..i + 1])
  {
    hide StandaloneDecision, Decision, CallsOf, TableAfter, MonotoneClock, Invisible;
    var ops := DrainPurgeDrain(c, threshold);
    var n := if i < c.burstSize then i else i + 1;
    assert ops[n].Acquire? && ops[n].device == 0;
    DrainIsMonotone(c, threshold);
    DrainedByTable(c, threshold, n + 1);
    DrainCalls(c, threshold, n + 1);
    InvisibleAt(c, threshold, ops, 0.0, n);
  }

  lemma InvisibleGrantsAll(c: Config, threshold: real, run: Run)
    requires c.requestsPerSecond >= 0.0 && c.burstSize > 0 && Invisible(c, threshold)
    requires run.Valid() && run.times == DrainTimes(c, threshold)
    requires forall i :: 0 <= i < |run.times| ==> run.took[i] == StandaloneDecision(c, run.times[..i + 1])
    ensures forall i :: 0 <= i < |run.took| ==> run.took[i]
  {
    hide StandaloneDecision, Invisible;
    forall i | 0 <= i < |run.took|
      ensures run.took[i]
    {
      InvisibleGrants(c, threshold, i);
    }
  }

  lemma {:induction false} DrainIsMonotone(c: Config, threshold: real)
    ensures MonotoneClock(DrainPurgeDrain(c, threshold), 0.0)
  {
    var ops := DrainPurgeDrain(c, threshold);
    forall i | 0 <= i < |ops|
      ensures ClockAfter(ops, 0.0, i) <= ops[i].now
    {
      assert i > 0 ==> ClockAfter(ops, 0.0, i) == ops[i - 1].now;
    }
  }

  /** A purge threshold is invisible exactly when it leaves time to refill a whole burst. */
  lemma PurgeInvisibleIff(c: Config, threshold: real)
    requires c.requestsPerSecond >= 0.0
    ensures Invisible(c, threshold) <==> c.burstSize == 0 || RefillsWithin(c, threshold)
  {
    if c.burstSize == 0 || RefillsWithin(c, threshold) {
      forall ops: seq<Op>, low: real, i: nat |
        i < |ops| && ops[i].Acquire? && MonotoneClock(ops, low)
        && (forall k :: 0 <= k < |ops| && ops[k].Purge? ==> ops[k].threshold == threshold)
        ensures Decision(c, ops, i) <==> StandaloneDecision(c, CallsOf(ops, ops[i].device, i + 1))
      {
        Isolation(c, ops, low, i);
      }
    } else if Invisible(c, threshold) {
      hide Invisible, StandaloneDecision;
      var run := StandaloneIsLimiter(c, DrainTimes(c, threshold));
      InvisibleGrantsAll(c, threshold, run);
      AllGrantedIsEarned(c, threshold, run);
    }
  }

  // ---------------------------------------------------------------------------------------------
  // The table
  // ---------------------------------------------------------------------------------------------

  lemma {:induction false} ExtendKeepsTable(c: Config, ops: seq<Op>, op: Op, n: nat)
    requires n <= |ops|
    ensures TableAfter(c, ops + [op], n) == TableAfter(c, ops, n)
  {
    if n > 0 {
      ExtendKeepsTable(c, ops, op, n - 1);
    }
  }

  lemma ExtendTable(c: Config, ops: seq<Op>, op: Op)
    ensures TableAfter(c, ops + [op], |ops| + 1) == Apply(c, TableAfter(c, ops, |ops|), op)
    ensures op.Acquire? ==>
              (Decision(c, ops + [op], |ops|)
               <==> Grants(c, BucketFor(c, TableAfter(c, ops, |ops|), op.device, op.now), op.now))
  {
    ExtendKeepsTable(c, ops, op, |ops|);
  }

  lemma AcquireStores(c: Config, before: Table, d: DeviceId, now: real, after: Table)
    requires var b := BucketFor(c, before, d, now);
             && after.limiters == before.limiters[d := b][d := Serve(c, b, now, Grants(c, b, now))]
             && after.rejected == before.rejected + if Grants(c, b, now) then 0 else 1
    ensures after == Apply(c, before, Acquire(d, now))
  {
    hide Serve, Grants, BucketFor;
  }

  type Limiters = map<DeviceId, RateLimiter>

  ghost predicate Among(limiters: Limiters, objects: set<RateLimiter>) {
    forall d :: d in limiters ==> limiters[d] in objects
  }

  /** Each device has a limiter of its own. */
  ghost predicate Own(c: Config, limiters: Limiters, objects: set<RateLimiter>)
    reads objects
  {
    && Among(limiters, objects)
    && (forall o :: o in objects ==> o.Valid() && o.config == c)
    && (forall d, e :: d in limiters && e in limiters && d != e ==> limiters[d] != limiters[e])
  }

  lemma OwnAmong(c: Config, limiters: Limiters, objects: set<RateLimiter>)
    requires Own(c, limiters, objects)
    ensures Among(limiters, objects)
  {
  }

  /** What the limiters of a table hold. */
  ghost function Buckets(limiters: Limiters, objects: set<RateLimiter>): (buckets: map<DeviceId, Bucket>)
    requires Among(limiters, objects)
    reads objects
    ensures buckets.Keys == limiters.Keys
    ensures forall d :: d in limiters ==> buckets[d] == limiters[d].State()
  {
    map d | d in limiters :: limiters[d].State()
  }

  lemma BucketsUpdate(limiters: Limiters, objects: set<RateLimiter>, d: DeviceId)
    requires Among(limiters, objects) && d in limiters
    requires forall e :: e in limiters && e != d ==> limiters[e] in objects - {limiters[d]}
    ensures Buckets(limiters, objects) == Buckets(limiters - {d}, objects - {limiters[d]})[d := limiters[d].State()]
  {
  }

  /** The limiters whose last call is less than `threshold` old. */
  function ActiveLimiters(limiters: Limiters, ghost objects: set<RateLimiter>, now: real, threshold: real)
    : (kept: Limiters)
    requires Among(limiters, objects)
    reads objects
    ensures kept.Keys <= limiters.Keys && forall d :: d in kept ==> kept[d] == limiters[d]
  {
    map d | d in limiters && now - limiters[d].lastUpdate < threshold :: limiters[d]
  }

  lemma ActiveLimitersMean(limiters: Limiters, objects: set<RateLimiter>, now: real, threshold: real)
    requires Among(limiters, objects)
    ensures var kept := ActiveLimiters(limiters, objects, now, threshold);
            forall d :: d in kept <==> d in limiters && now - limiters[d].lastUpdate < threshold
  {
  }

  lemma BucketsActive(limiters: Limiters, objects: set<RateLimiter>, now: real, threshold: real)
    requires Among(limiters, objects)
    ensures Buckets(ActiveLimiters(limiters, objects, now, threshold), objects)
         == Active(Buckets(limiters, objects), now, threshold)
  {
  }

  /** One table of limiters, with its whole history as a ghost. */
  class DeviceRateLimiter {
    const config: Config
    var limiters: Limiters
    var totalRejected: nat
    ghost var objects: set<RateLimiter>
    ghost var ops: seq<Op>

    ghost predicate Separate()
      reads this, objects
    {
      Own(config, limiters, objects)
    }

    ghost function State(): Table
      requires Among(limiters, objects)
      reads this, objects
    {
      Table(Buckets(limiters, objects), totalRejected)
    }

    /** The fields are what the history leaves. */
    ghost predicate Valid()
      reads this, objects
    {
      Separate() && State() == TableAfter(config, ops, |ops|)
    }

    constructor (config: Config)
      ensures Valid() && this.config == config && ops == [] && objects == {}
    {
      this.config := config;
      limiters := map[];
      totalRejected := 0;
      objects := {};
      ops := [];
    }

    /** Makes the limiter of `d` on its first call. */
    method Entry(d: DeviceId, now: real)
      requires Separate()
      modifies this`limiters, this`objects
      ensures Separate() && fresh(objects - old(objects))
      ensures d in limiters
      ensures State().limiters == old(State()).limiters[d := BucketFor(config, old(State()), d, now)]
    {
      hide RateLimiter.Valid;
      if d !in limiters {
        var limiter := new RateLimiter(config, now);
        limiters := limiters[d := limiter];
        objects := objects + {limiter};
      }
    }

    /** Asks the limiter of `d`; no other limiter notices. */
    method Ask(d: DeviceId, now: real) returns (admitted: bool)
      requires Separate() && d in limiters
      modifies limiters[d]
      ensures Separate()
      ensures admitted == Grants(config, old(State()).limiters[d], now)
      ensures State().limiters == old(State()).limiters[d := Serve(config, old(State()).limiters[d], now, admitted)]
    {
      hide RateLimiter.Valid, Refill, Serve, Grants, FitsEveryWindow, FitsLife, Buckets;
      BucketsUpdate(limiters, objects, d);
      admitted := limiters[d].TryAcquire(now);
      BucketsUpdate(limiters, objects, d);
    }

    /** Judges one request and counts a rejection. */
    method Judge(d: DeviceId, now: real) returns (admitted: bool)
      requires Separate()
      modifies this`limiters, this`objects, this`totalRejected, objects
      ensures Separate() && fresh(objects - old(objects))
      ensures admitted == Grants(config, BucketFor(config, old(State()), d, now), now)
      ensures State() == Apply(config, old(State()), Acquire(d, now))
    {
      hide Own, Among, RateLimiter.Valid, Serve, Grants, Buckets, BucketFor, Apply;
      OwnAmong(config, limiters, objects);
      ghost var before := State();
      Entry(d, now);
      OwnAmong(config, limiters, objects);
      admitted := Ask(d, now);
      OwnAmong(config, limiters, objects);
      if !admitted {
        totalRejected := totalRejected + 1;
      }
      OwnAmong(config, limiters, objects);
      AcquireStores(config, before, d, now, State());
    }

    method TryAcquire(d: DeviceId, now: real) returns (admitted: bool)
      requires Valid()
      modifies this, objects
      ensures Valid() && fresh(objects - old(objects))
      ensures ops == old(ops) + [Acquire(d, now)]
      ensures admitted <==> Decision(config, ops, |old(ops)|)
    {
      hide Own, Among, RateLimiter.Valid, Grants, TableAfter, Decision, BucketFor, Buckets, Apply;
      ExtendTable(config, ops, Acquire(d, now));
      OwnAmong(config, limiters, objects);
      admitted := Judge(d, now);
      ops := ops + [Acquire(d, now)];
      OwnAmong(config, limiters, objects);
    }

    method RemoveDevice(d: DeviceId) returns (removed: bool)
      requires Valid()
      modifies this
      ensures Valid() && objects == old(objects)
      ensures ops == old(ops) + [Remove(d)]
      ensures removed <==> d in old(limiters)
      ensures limiters == old(limiters) - {d} && totalRejected == old(totalRejected)
    {
      hide RateLimiter.Valid, TableAfter;
      ghost var before := State();
      ExtendTable(config, ops, Remove(d));
      removed := d in limiters;
      limiters := limiters - {d};
      ops := ops + [Remove(d)];
      assert State() == Apply(config, before, Remove(d));
    }

    /** Drops every limiter whose last call is at least `threshold` old, and counts them. */
    method PurgeInactive(now: real, threshold: real) returns (purged: nat)
      requires Valid()
      modifies this
      ensures Valid() && objects == old(objects)
      ensures ops == old(ops) + [Purge(now, threshold)]
      ensures purged == |Idle(old(State()).limiters, now, threshold)|
      ensures purged == |old(limiters)| - |limiters| && totalRejected == old(totalRejected)
      ensures forall d :: d in limiters <==> d in old(limiters) && now - old(limiters)[d].lastUpdate < threshold
      ensures forall d :: d in limiters ==> limiters[d] == old(limiters)[d]
    {
      hide RateLimiter.Valid, TableAfter, Buckets, BucketFor, ActiveLimiters, Active, Idle;
      ExtendTable(config, ops, Purge(now, threshold));
      var kept := ActiveLimiters(limiters, objects, now, threshold);
      BucketsActive(limiters, objects, now, threshold);
      ActiveLimitersMean(limiters, objects, now, threshold);
      ActiveOrIdle(State().limiters, now, threshold);
      assert |limiters.Keys| == |State().limiters.Keys| && |kept.Keys| == |Buckets(kept, objects).Keys|;
      purged := |limiters| - |kept|;
      limiters := kept;
      ops := ops + [Purge(now, threshold)];
    }
  }
}
