/**
 A level that gains, is capped, and pays one unit at the steps that take: the arithmetic behind the token
 bucket, over an arbitrary sequence of gains.  The level turns out to be the least over all windows of
 what the window's gains leave over, which is where the sliding-window law comes from.
 */
module CappedSum {

  /** `gains[k]` arrives at step `k`; the step then takes one unit if `took[k]`. */
  datatype Trace = Trace(cap: real, gains: seq<real>, took: seq<bool>) {
    ghost predicate Valid() { |gains| == |took| }
  }

  function Min(a: real, b: real): real {
    if a <= b then a else b
  }

  /** What is held after the first `k` steps. */
  ghost function Held(x: Trace, k: nat): real
    requires x.Valid() && k <= |x.took|
    decreases k, 0
  {
    if k == 0 then x.cap
    else Level(x, k - 1) - (if x.took[k - 1] then 1.0 else 0.0)
  }

  /** What step `k` finds after its gain. */
  ghost function Level(x: Trace, k: nat): real
    requires x.Valid() && k < |x.took|
    decreases k, 1
  {
    Min(Held(x, k) + x.gains[k], x.cap)
  }

  /** No step takes a unit that is not there. */
  ghost predicate Feasible(x: Trace)
    requires x.Valid()
  {
    forall k :: 0 <= k < |x.took| && x.took[k] ==> Level(x, k) >= 1.0
  }

  /** Every step that finds a unit takes it, and no other. */
  ghost predicate Greedy(x: Trace)
    requires x.Valid()
  {
    forall k :: 0 <= k < |x.took| ==> (x.took[k] <==> Level(x, k) >= 1.0)
  }

  /** Steps in `[j, k)` that took. */
  ghost function Taken(took: seq<bool>, j: nat, k: nat): nat
    requires j <= k <= |took|
    decreases k - j
  {
    if j == k then 0 else Taken(took, j, k - 1) + (if took[k - 1] then 1 else 0)
  }

  /** Gains of the steps in `[j, k)`. */
  ghost function Gained(gains: seq<real>, j: nat, k: nat): real
    requires j <= k <= |gains|
    decreases k - j
  {
    if j == k then 0.0 else Gained(gains, j, k - 1) + gains[k - 1]
  }

  lemma {:induction false} GainedSplits(gains: seq<real>, j: nat, k: nat)
    requires j <= k <= |gains|
    ensures Gained(gains, 0, k) == Gained(gains, 0, j) + Gained(gains, j, k)
    decreases k
  {
    if j < k {
      GainedSplits(gains, j, k - 1);
    }
  }

  /** What the window from step `j` to step `k` leaves over for step `k`. */
  ghost function Left(x: Trace, j: nat, k: nat): real
    requires x.Valid() && j <= k < |x.took|
  {
    x.cap + Gained(x.gains, j + 1, k + 1) - Taken(x.took, j, k) as real
  }

  /** The same for everything since the start. */
  ghost function LeftSinceStart(x: Trace, k: nat): real
    requires x.Valid() && k < |x.took|
  {
    x.cap + Gained(x.gains, 0, k + 1) - Taken(x.took, 0, k) as real
  }

  lemma {:induction false} LevelBelowWindows(x: Trace, j: nat, k: nat)
    requires x.Valid() && j <= k < |x.took|
    ensures Level(x, k) <= Left(x, j, k)
    ensures Level(x, k) <= LeftSinceStart(x, k)
    decreases k
  {
    if k == 0 {
      assert Gained(x.gains, 0, 0) == 0.0;
    } else {
      LevelBelowWindows(x, if j < k then j else 0, k - 1);
    }
  }

  lemma {:induction false} LevelIsSomeWindow(x: Trace, k: nat)
    requires x.Valid() && k < |x.took|
    ensures Level(x, k) == LeftSinceStart(x, k) || exists j :: 0 <= j <= k && Level(x, k) == Left(x, j, k)
  {
    if Level(x, k) == x.cap {
      assert Level(x, k) == Left(x, k, k);
    } else if k > 0 {
      LevelIsSomeWindow(x, k - 1);
      if Level(x, k - 1) != LeftSinceStart(x, k - 1) {
        var j :| 0 <= j <= k - 1 && Level(x, k - 1) == Left(x, j, k - 1);
        assert Level(x, k) == Left(x, j, k);
      }
    } else {
      assert Held(x, 0) == x.cap && Gained(x.gains, 0, 1) == x.gains[0];
    }
  }

  /** A unit is there exactly when every window, and everything since the start, leaves one over. */
  lemma {:induction false} UnitIffWindowsFit(x: Trace, k: nat)
    requires x.Valid() && k < |x.took|
    ensures Level(x, k) >= 1.0 <==> LeftSinceStart(x, k) >= 1.0 && forall j :: 0 <= j <= k ==> Left(x, j, k) >= 1.0
  {
    forall j | 0 <= j <= k
      ensures Level(x, k) <= Left(x, j, k)
    {
      LevelBelowWindows(x, j, k);
    }
    LevelBelowWindows(x, 0, k);
    LevelIsSomeWindow(x, k);
  }

  /** A feasible trace, greedy or not, takes no more in any window than the cap and the gains allow. */
  lemma {:induction false} WindowBound(x: Trace, j: nat, k: nat)
    requires x.Valid() && Feasible(x) && j <= k < |x.took|
    requires x.cap >= 0.0 && forall i :: 0 <= i < |x.gains| ==> x.gains[i] >= 0.0
    ensures Taken(x.took, j, k + 1) as real <= x.cap + Gained(x.gains, j + 1, k + 1)
    decreases k
  {
    LevelBelowWindows(x, j, k);
    if !x.took[k] && j < k {
      WindowBound(x, j, k - 1);
    }
  }

  /** After every prefix the greedy trace is ahead in units taken, and in units taken or still held. */
  lemma {:induction false} GreedyStaysAhead(g: Trace, x: Trace, n: nat)
    requires g.Valid() && x.Valid() && g.cap == x.cap && g.gains == x.gains
    requires Greedy(g) && Feasible(x) && n <= |g.took|
    ensures Taken(g.took, 0, n) >= Taken(x.took, 0, n)
    ensures Taken(g.took, 0, n) as real + Held(g, n) >= Taken(x.took, 0, n) as real + Held(x, n)
  {
    if n > 0 {
      GreedyStaysAhead(g, x, n - 1);
      assert x.took[n - 1] ==> Level(x, n - 1) >= 1.0;
      assert g.took[n - 1] <==> Level(g, n - 1) >= 1.0;
    }
  }
}
