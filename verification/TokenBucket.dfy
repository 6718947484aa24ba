/**
 The token bucket of one device, and what its greedy decisions amount to.

 Times and token counts are `real` where the gateway uses floating point.  A call that arrives with a
 clock reading below the last one earns nothing, so every law below is stated over `Clock`, the sum of
 the forward movements of the clock; `ClockIsElapsed` says when that is plain elapsed time.
 */
module TokenBucket {
  import C = CappedSum

  datatype Config = Config(requestsPerSecond: real, burstSize: nat)

  datatype Bucket = Bucket(tokens: real, lastUpdate: real)

  function Forward(from: real, now: real): real {
    if now >= from then now - from else 0.0
  }

  function Gain(c: Config, from: real, now: real): real {
    Forward(from, now) * c.requestsPerSecond
  }

  function Fresh(c: Config, now: real): Bucket {
    Bucket(c.burstSize as real, now)
  }

  function Refill(c: Config, b: Bucket, now: real): Bucket {
    Bucket(C.Min(b.tokens + Gain(c, b.lastUpdate, now), c.burstSize as real), now)
  }

  /** The decision of the gateway: take a token whenever a whole one is there. */
  predicate Grants(c: Config, b: Bucket, now: real) {
    Refill(c, b, now).tokens >= 1.0
  }

  /** A refill followed by the removal of one token, if `take` says so. */
  function Serve(c: Config, b: Bucket, now: real, take: bool): Bucket {
    var r := Refill(c, b, now);
    if take then r.(tokens := r.tokens - 1.0) else r
  }

  /** One call, spelled out. */
  lemma CallMeans(c: Config, b: Bucket, now: real, take: bool)
    ensures var earned := if now > b.lastUpdate then (now - b.lastUpdate) * c.requestsPerSecond else 0.0;
            var full := c.burstSize as real;
            var there := if b.tokens + earned <= full then b.tokens + earned else full;
            && Refill(c, b, now) == Bucket(there, now)
            && (Grants(c, b, now) <==> there >= 1.0)
            && Serve(c, b, now, take) == Bucket(if take then there - 1.0 else there, now)
  {
  }

  // ---------------------------------------------------------------------------------------------
  // Runs: the creation time, the call times, and the calls that took a token, greedily or not
  // ---------------------------------------------------------------------------------------------

  datatype Run = Run(start: real, times: seq<real>, took: seq<bool>) {
    ghost predicate Valid() { |times| == |took| }

    ghost function Extend(now: real, take: bool): Run {
      Run(start, times + [now], took + [take])
    }
  }

  /** The bucket after the first `k` calls. */
  ghost function After(c: Config, run: Run, k: nat): Bucket
    requires run.Valid() && k <= |run.times|
  {
    if k == 0 then Fresh(c, run.start)
    else Serve(c, After(c, run, k - 1), run.times[k - 1], run.took[k - 1])
  }

  /** Call `k` finds a whole token. */
  ghost predicate FindsToken(c: Config, run: Run, k: nat)
    requires run.Valid() && k < |run.times|
  {
    Grants(c, After(c, run, k), run.times[k])
  }

  /** No call takes a token that is not there. */
  ghost predicate Feasible(c: Config, run: Run)
    requires run.Valid()
  {
    forall k :: 0 <= k < |run.times| && run.took[k] ==> FindsToken(c, run, k)
  }

  /** Every call that finds a token takes it, and no other: what `TryAcquire` does. */
  ghost predicate Greedy(c: Config, run: Run)
    requires run.Valid()
  {
    forall k :: 0 <= k < |run.times| ==> (run.took[k] <==> FindsToken(c, run, k))
  }

  /** Calls in `[j, k)` that took a token. */
  ghost function Taken(run: Run, j: nat, k: nat): nat
    requires run.Valid() && j <= k <= |run.times|
  {
    C.Taken(run.took, j, k)
  }

  ghost function Previous(run: Run, k: nat): real
    requires k <= |run.times|
  {
    if k == 0 then run.start else run.times[k - 1]
  }

  /** Forward clock movement from the creation of the bucket to call `k`. */
  ghost function Clock(run: Run, k: nat): real
    requires k < |run.times|
  {
    (if k == 0 then 0.0 else Clock(run, k - 1)) + Forward(Previous(run, k), run.times[k])
  }

  /** What the configuration allows from call `j` to call `k`. */
  ghost function Allowance(c: Config, run: Run, j: nat, k: nat): real
    requires j <= k < |run.times|
  {
    c.burstSize as real + c.requestsPerSecond * (Clock(run, k) - Clock(run, j))
  }

  /** Call `k` fits in every window that ends with it. */
  ghost predicate FitsEveryWindow(c: Config, run: Run, k: nat)
    requires run.Valid() && k < |run.times|
  {
    forall j :: 0 <= j <= k ==> (1 + Taken(run, j, k)) as real <= Allowance(c, run, j, k)
  }

  /** Call `k` fits in what the bucket has held and earned since it was created. */
  ghost predicate FitsLife(c: Config, run: Run, k: nat)
    requires run.Valid() && k < |run.times|
  {
    (1 + Taken(run, 0, k)) as real <= c.burstSize as real + c.requestsPerSecond * Clock(run, k)
  }

  // ---------------------------------------------------------------------------------------------
  // The bucket is a capped sum of its gains
  // ---------------------------------------------------------------------------------------------

  ghost function Gains(c: Config, run: Run): (gains: seq<real>)
    ensures |gains| == |run.times|
  {
    seq(|run.times|, i requires 0 <= i < |run.times| => Gain(c, Previous(run, i), run.times[i]))
  }

  ghost function AsTrace(c: Config, run: Run): C.Trace {
    C.Trace(c.burstSize as real, Gains(c, run), run.took)
  }

  lemma {:induction false} AfterIsHeld(c: Config, run: Run, k: nat)
    requires run.Valid() && k <= |run.times|
    ensures After(c, run, k) == Bucket(C.Held(AsTrace(c, run), k), Previous(run, k))
  {
    if k > 0 {
      AfterIsHeld(c, run, k - 1);
      assert Gains(c, run)[k - 1] == Gain(c, Previous(run, k - 1), run.times[k - 1]);
    }
  }

  lemma FindsTokenIsLevel(c: Config, run: Run, k: nat)
    requires run.Valid() && k < |run.times|
    ensures FindsToken(c, run, k) <==> C.Level(AsTrace(c, run), k) >= 1.0
  {
    AfterIsHeld(c, run, k);
    assert Gains(c, run)[k] == Gain(c, Previous(run, k), run.times[k]);
  }

  lemma Distribute(r: real, x: real, y: real)
    ensures r * (x + y) == r * x + r * y
    ensures r * (x - y) == r * x - r * y
  {
  }

  lemma {:induction false} GainedSinceStart(c: Config, run: Run, k: nat)
    requires k < |run.times|
    ensures C.Gained(Gains(c, run), 0, k + 1) == c.requestsPerSecond * Clock(run, k)
  {
    hide Previous;
    var g, before := Gains(c, run), if k == 0 then 0.0 else Clock(run, k - 1);
    var f := Forward(Previous(run, k), run.times[k]);
    assert C.Gained(g, 0, k) == c.requestsPerSecond * before by {
      if k == 0 {
        assert C.Gained(g, 0, 0) == 0.0;
      } else {
        GainedSinceStart(c, run, k - 1);
      }
    }
    Distribute(c.requestsPerSecond, before, f);
    assert g[k] == f * c.requestsPerSecond;
  }

  lemma WindowOfScaled(g: seq<real>, r: real, x: real, y: real, j: nat, k: nat)
    requires j <= k < |g|
    requires C.Gained(g, 0, j + 1) == r * x && C.Gained(g, 0, k + 1) == r * y
    ensures C.Gained(g, j + 1, k + 1) == r * (y - x)
  {
    C.GainedSplits(g, j + 1, k + 1);
    Distribute(r, y, x);
  }

  /** The allowance of a window is the burst and the gains after its first call. */
  lemma AllowanceIsGained(c: Config, run: Run, j: nat, k: nat)
    requires j <= k < |run.times|
    ensures Allowance(c, run, j, k) == c.burstSize as real + C.Gained(Gains(c, run), j + 1, k + 1)
  {
    hide Clock, Gains, C.Gained;
    GainedSinceStart(c, run, j);
    GainedSinceStart(c, run, k);
    WindowOfScaled(Gains(c, run), c.requestsPerSecond, Clock(run, j), Clock(run, k), j, k);
  }

  /** While the clock does not go back, the accumulated movement is elapsed time. */
  lemma {:induction false} ClockIsElapsed(run: Run, k: nat)
    requires k < |run.times|
    requires forall i :: 0 <= i <= k ==> Previous(run, i) <= run.times[i]
    ensures Clock(run, k) == run.times[k] - run.start
  {
    if k > 0 {
      ClockIsElapsed(run, k - 1);
    }
  }

  /** A clock that never goes forward earns nothing. */
  lemma {:induction false} BackwardsEarnsNothing(run: Run, k: nat)
    requires k < |run.times|
    requires forall i :: 0 <= i <= k ==> Previous(run, i) >= run.times[i]
    ensures Clock(run, k) == 0.0
  {
    if k > 0 {
      BackwardsEarnsNothing(run, k - 1);
    }
  }

  // ---------------------------------------------------------------------------------------------
  // The sliding-window law
  // ---------------------------------------------------------------------------------------------

  /** A token is there exactly when the call fits in every window and in the life of the bucket: any rate, any run. */
  lemma TokenIffWindowsFit(c: Config, run: Run, k: nat)
    requires run.Valid() && k < |run.times|
    ensures FindsToken(c, run, k) <==> FitsEveryWindow(c, run, k) && FitsLife(c, run, k)
  {
    hide Clock, Gains, C.Gained, C.Level, C.Taken, After;
    FindsTokenIsLevel(c, run, k);
    C.UnitIffWindowsFit(AsTrace(c, run), k);
    forall j | 0 <= j <= k
      ensures C.Left(AsTrace(c, run), j, k) == Allowance(c, run, j, k) - Taken(run, j, k) as real
    {
      AllowanceIsGained(c, run, j, k);
    }
    GainedSinceStart(c, run, k);
  }

  /** With a rate of at least 0 the first window is at least as tight as the life of the bucket. */
  lemma FirstWindowIsTightest(c: Config, run: Run, k: nat)
    requires c.requestsPerSecond >= 0.0
    requires run.Valid() && k < |run.times| && FitsEveryWindow(c, run, k)
    ensures FitsLife(c, run, k)
  {
    assert c.requestsPerSecond * Clock(run, 0) >= 0.0;
    assert (1 + Taken(run, 0, k)) as real <= Allowance(c, run, 0, k);
  }

  /** A greedy limiter admits exactly the calls that fit in every window ending with them. */
  lemma SlidingWindowLaw(c: Config, run: Run, k: nat)
    requires c.requestsPerSecond >= 0.0
    requires run.Valid() && Greedy(c, run) && k < |run.times|
    ensures run.took[k] <==> FitsEveryWindow(c, run, k)
  {
    TokenIffWindowsFit(c, run, k);
    if FitsEveryWindow(c, run, k) {
      FirstWindowIsTightest(c, run, k);
    }
  }

  lemma FeasibleIsFeasible(c: Config, run: Run)
    requires run.Valid() && Feasible(c, run)
    ensures C.Feasible(AsTrace(c, run))
  {
    forall k | 0 <= k < |run.times| && run.took[k]
      ensures C.Level(AsTrace(c, run), k) >= 1.0
    {
      FindsTokenIsLevel(c, run, k);
    }
  }

  /** No window of a feasible run, greedy or not, takes more than burst + rate * length. */
  lemma WindowBound(c: Config, run: Run, j: nat, k: nat)
    requires c.requestsPerSecond >= 0.0
    requires run.Valid() && Feasible(c, run) && j <= k < |run.times|
    ensures Taken(run, j, k + 1) as real <= Allowance(c, run, j, k)
  {
    FeasibleIsFeasible(c, run);
    C.WindowBound(AsTrace(c, run), j, k);
    AllowanceIsGained(c, run, j, k);
  }

  // ---------------------------------------------------------------------------------------------
  // Greedy optimality
  // ---------------------------------------------------------------------------------------------

  /** After every prefix the greedy run has admitted at least as much as any choice that never overdraws. */
  lemma GreedyIsOptimal(c: Config, greedy: Run, other: Run, n: nat)
    requires greedy.Valid() && other.Valid()
    requires greedy.start == other.start && greedy.times == other.times
    requires Greedy(c, greedy) && Feasible(c, other)
    requires n <= |greedy.times|
    ensures Taken(greedy, 0, n) >= Taken(other, 0, n)
  {
    FeasibleIsFeasible(c, other);
    forall k | 0 <= k < |greedy.times|
      ensures greedy.took[k] <==> C.Level(AsTrace(c, greedy), k) >= 1.0
    {
      FindsTokenIsLevel(c, greedy, k);
    }
    assert Gains(c, greedy) == Gains(c, other);
    C.GreedyStaysAhead(AsTrace(c, greedy), AsTrace(c, other), n);
  }

  /** Respecting every window already makes a choice feasible, so greedy beats every such choice too. */
  lemma GreedyBeatsEveryWindowedChoice(c: Config, greedy: Run, other: Run, n: nat)
    requires c.requestsPerSecond >= 0.0
    requires greedy.Valid() && other.Valid()
    requires greedy.start == other.start && greedy.times == other.times
    requires Greedy(c, greedy)
    requires forall k :: 0 <= k < |other.times| && other.took[k] ==> FitsEveryWindow(c, other, k)
    requires n <= |greedy.times|
    ensures Taken(greedy, 0, n) >= Taken(other, 0, n)
  {
    forall k | 0 <= k < |other.times| && other.took[k]
      ensures FindsToken(c, other, k)
    {
      FirstWindowIsTightest(c, other, k);
      TokenIffWindowsFit(c, other, k);
    }
    GreedyIsOptimal(c, greedy, other, n);
  }

  // ---------------------------------------------------------------------------------------------
  // The limiter
  // ---------------------------------------------------------------------------------------------

  /** Later calls change nothing about the earlier ones. */
  lemma {:induction false} ExtendKeeps(c: Config, run: Run, now: real, take: bool, k: nat)
    requires run.Valid() && k <= |run.times|
    ensures After(c, run.Extend(now, take), k) == After(c, run, k)
  {
    hide Refill, Serve;
    if k > 0 {
      ExtendKeeps(c, run, now, take, k - 1);
    }
  }

  lemma ExtendGreedy(c: Config, run: Run, now: real, take: bool)
    requires run.Valid() && Greedy(c, run)
    requires take == Grants(c, After(c, run, |run.times|), now)
    ensures run.Extend(now, take).Valid() && Greedy(c, run.Extend(now, take))
    ensures After(c, run.Extend(now, take), |run.times| + 1) == Serve(c, After(c, run, |run.times|), now, take)
  {
    hide Refill;
    hide Refill, Serve, Grants;
    var next := run.Extend(now, take);
    forall k | 0 <= k < |next.times|
      ensures next.took[k] <==> FindsToken(c, next, k)
    {
      ExtendKeeps(c, run, now, take, k);
      if k < |run.times| {
        assert FindsToken(c, next, k) == FindsToken(c, run, k);
      }
    }
    ExtendKeeps(c, run, now, take, |run.times|);
  }

  lemma TakesIsFindsToken(c: Config, run: Run, now: real, take: bool)
    requires run.Valid() && take == Grants(c, After(c, run, |run.times|), now)
    ensures FindsToken(c, run.Extend(now, take), |run.times|) <==> take
  {
    hide Refill;
    ExtendKeeps(c, run, now, take, |run.times|);
  }

  /** One limiter, with its whole history as a ghost. */
  class RateLimiter {
    const config: Config
    var tokens: real
    var lastUpdate: real
    ghost var run: Run

    ghost function State(): Bucket
      reads this
    {
      Bucket(tokens, lastUpdate)
    }

    /** The fields are what the history of greedy calls leaves. */
    ghost predicate Valid()
      reads this
    {
      run.Valid() && Greedy(config, run) && State() == After(config, run, |run.times|)
    }

    constructor (config: Config, now: real)
      ensures Valid() && this.config == config && run == Run(now, [], [])
      ensures tokens == config.burstSize as real && lastUpdate == now
    {
      this.config := config;
      tokens := config.burstSize as real;
      lastUpdate := now;
      run := Run(now, [], []);
    }

    method RefillTo(now: real)
      modifies this`tokens, this`lastUpdate
      ensures State() == Refill(config, old(State()), now)
      ensures lastUpdate == now
      ensures tokens == var earned := if now > old(lastUpdate)
                                      then (now - old(lastUpdate)) * config.requestsPerSecond else 0.0;
                        if old(tokens) + earned <= config.burstSize as real
                        then old(tokens) + earned else config.burstSize as real
    {
      var elapsed := if now - lastUpdate > 0.0 then now - lastUpdate else 0.0;
      assert elapsed * config.requestsPerSecond == Gain(config, lastUpdate, now);
      tokens := C.Min(tokens + elapsed * config.requestsPerSecond, config.burstSize as real);
      lastUpdate := now;
    }

    /** Admits exactly the calls that fit in every window of the history, and records the decision. */
    method TryAcquire(now: real) returns (admitted: bool)
      requires Valid()
      modifies this
      ensures Valid() && run == old(run).Extend(now, admitted)
      ensures admitted <==> FitsEveryWindow(config, run, |old(run).times|) && FitsLife(config, run, |old(run).times|)
      ensures admitted == Grants(config, old(State()), now)
      ensures State() == Serve(config, old(State()), now, admitted)
      ensures lastUpdate == now
      ensures var earned := if now > old(lastUpdate)
                            then (now - old(lastUpdate)) * config.requestsPerSecond else 0.0;
              var there := if old(tokens) + earned <= config.burstSize as real
                           then old(tokens) + earned else config.burstSize as real;
              (admitted <==> there >= 1.0) && tokens == if admitted then there - 1.0 else there
    {
      hide Refill, Serve, Grants, FitsEveryWindow, FitsLife, Greedy, After, FindsToken;
      ghost var take := Grants(config, State(), now);
      CallMeans(config, State(), now, take);
      TakesIsFindsToken(config, run, now, take);
      ExtendGreedy(config, run, now, take);
      TokenIffWindowsFit(config, run.Extend(now, take), |run.times|);
      RefillTo(now);
      if tokens >= 1.0 {
        tokens := tokens - 1.0;
        admitted := true;
      } else {
        admitted := false;
      }
      run := run.Extend(now, admitted);
    }
  }
}
