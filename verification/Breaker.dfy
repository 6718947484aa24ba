/**
 The circuit breaker: what its counters mean over a whole history of events, and how many requests can
 reach a failing downstream service during an outage.

 Times are `real`, counters are unbounded; `HistoryInvariant` shows that all but the transition counter
 stay within the configured 32-bit limits.
 */
module Breaker {

  datatype CircuitState = Closed | Open | HalfOpen

  datatype Config = Config(failureThreshold: nat, recoveryTimeout: real, halfOpenMaxRequests: nat) {
    /** Failures that open a closed circuit. */
    ghost function OpensAt(): nat { if failureThreshold == 0 then 1 else failureThreshold }

    /** Requests that one recovery attempt lets through, and successes that end it. */
    ghost function Probes(): nat { if halfOpenMaxRequests == 0 then 1 else halfOpenMaxRequests }
  }

  datatype Event =
    | Allow(now: real)
    | Success
    | Failure(now: real)
    | Reset

  datatype Circuit = Circuit(
    state: CircuitState,
    consecutiveFailures: nat,
    openedAt: real,
    halfOpenRequests: nat,
    halfOpenSuccesses: nat,
    transitionCount: nat)
  {
    function To(next: CircuitState): Circuit {
      if state == next then this else this.(state := next, transitionCount := transitionCount + 1)
    }
  }

  const INITIAL := Circuit(Closed, 0, 0.0, 0, 0, 0)

  predicate Admits(c: Config, s: Circuit, now: real) {
    match s.state
    case Closed => true
    case Open => now - s.openedAt >= c.recoveryTimeout
    case HalfOpen => s.halfOpenRequests < c.halfOpenMaxRequests
  }

  function Next(c: Config, s: Circuit, e: Event): Circuit {
    match e
    case Allow(now) =>
      if !Admits(c, s, now) then s
      else (match s.state
            case Closed => s
            case Open => s.To(HalfOpen).(halfOpenRequests := 1, halfOpenSuccesses := 0)
            case HalfOpen => s.(halfOpenRequests := s.halfOpenRequests + 1))
    case Success =>
      (match s.state
       case Closed => s.(consecutiveFailures := 0)
       case Open => s
       case HalfOpen =>
         var counted := s.(halfOpenSuccesses := s.halfOpenSuccesses + 1);
         if counted.halfOpenSuccesses >= c.halfOpenMaxRequests then counted.To(Closed).(consecutiveFailures := 0)
         else counted)
    case Failure(now) =>
      (match s.state
       case Closed =>
         var counted := s.(consecutiveFailures := s.consecutiveFailures + 1);
         if counted.consecutiveFailures >= c.failureThreshold then counted.To(Open).(openedAt := now) else counted
       case Open => s
       case HalfOpen => s.To(Open).(openedAt := now))
    case Reset =>
      s.To(Closed).(consecutiveFailures := 0, halfOpenRequests := 0, halfOpenSuccesses := 0)
  }

  /** The circuit after the first `n` events. */
  ghost function After(c: Config, events: seq<Event>, n: nat): Circuit
    requires n <= |events|
  {
    if n == 0 then INITIAL else Next(c, After(c, events, n - 1), events[n - 1])
  }

  // ---------------------------------------------------------------------------------------------
  // What the counters mean
  // ---------------------------------------------------------------------------------------------

  /** Failures among the first `n` events, after the last success or reset. */
  ghost function FailuresInARow(events: seq<Event>, n: nat): nat
    requires n <= |events|
  {
    if n == 0 then 0
    else match events[n - 1]
      case Allow(_) => FailuresInARow(events, n - 1)
      case Success => 0
      case Reset => 0
      case Failure(_) => FailuresInARow(events, n - 1) + 1
  }

  /** When the stay in `HalfOpen` that holds after `n` events began. */
  ghost function HalfOpenSince(c: Config, events: seq<Event>, n: nat): (k: nat)
    requires n <= |events|
    ensures k <= n
  {
    if n == 0 || After(c, events, n - 1).state != HalfOpen then n else HalfOpenSince(c, events, n - 1)
  }

  ghost function Allows(events: seq<Event>, i: nat, n: nat): nat
    requires i <= n <= |events|
  {
    if i == n then 0 else Allows(events, i, n - 1) + (if events[n - 1].Allow? then 1 else 0)
  }

  ghost function Successes(events: seq<Event>, i: nat, n: nat): nat
    requires i <= n <= |events|
  {
    if i == n then 0 else Successes(events, i, n - 1) + (if events[n - 1].Success? then 1 else 0)
  }

  /** Every counter, as a count over the history. */
  ghost predicate CountersMean(c: Config, events: seq<Event>, n: nat)
    requires n <= |events|
  {
    var s := After(c, events, n);
    match s.state
    case Closed =>
      && s.consecutiveFailures == FailuresInARow(events, n)
      && s.consecutiveFailures < c.OpensAt()
    case Open =>
      s.consecutiveFailures == c.OpensAt()
    case HalfOpen =>
      var k := HalfOpenSince(c, events, n);
      && s.consecutiveFailures == c.OpensAt()
      && s.halfOpenSuccesses == Successes(events, k, n) < c.Probes()
      && s.halfOpenRequests == (if 1 + Allows(events, k, n) <= c.Probes() then 1 + Allows(events, k, n) else c.Probes())
  }

  lemma {:induction false} HistoryInvariant(c: Config, events: seq<Event>, n: nat)
    requires n <= |events|
    ensures CountersMean(c, events, n)
  {
    if n > 0 {
      HistoryInvariant(c, events, n - 1);
    }
  }

  // ---------------------------------------------------------------------------------------------
  // Transitions
  // ---------------------------------------------------------------------------------------------

  /** How often the first `n` events entered `target`. */
  ghost function Entries(c: Config, events: seq<Event>, target: CircuitState, n: nat): nat
    requires n <= |events|
  {
    if n == 0 then 0
    else
      Entries(c, events, target, n - 1)
      + (if After(c, events, n - 1).state != target && After(c, events, n).state == target then 1 else 0)
  }

  ghost function ResetsFromOpen(c: Config, events: seq<Event>, n: nat): nat
    requires n <= |events|
  {
    if n == 0 then 0
    else
      ResetsFromOpen(c, events, n - 1)
      + (if After(c, events, n - 1).state == Open && events[n - 1] == Reset then 1 else 0)
  }

  /** Every opening is followed by a half-opening or a reset, except the one that still holds. */
  lemma {:induction false} TransitionLedger(c: Config, events: seq<Event>, n: nat)
    requires n <= |events|
    ensures var s := After(c, events, n);
            && s.transitionCount
               == Entries(c, events, Open, n) + Entries(c, events, HalfOpen, n) + Entries(c, events, Closed, n)
            && Entries(c, events, Open, n)
               == Entries(c, events, HalfOpen, n) + ResetsFromOpen(c, events, n) + (if s.state == Open then 1 else 0)
  {
    if n > 0 {
      TransitionLedger(c, events, n - 1);
    }
  }

  /** Exactly when the state changes, in terms of the history alone. */
  lemma TransitionsIff(c: Config, events: seq<Event>, i: nat)
    requires i < |events|
    ensures var s, t, e := After(c, events, i), After(c, events, i + 1).state, events[i];
            match s.state
            case Closed =>
              && t != HalfOpen
              && (t == Open <==> FailuresInARow(events, i + 1) >= c.OpensAt())
            case Open =>
              && (t == HalfOpen <==> e.Allow? && e.now - s.openedAt >= c.recoveryTimeout)
              && (t == Closed <==> e == Reset)
            case HalfOpen =>
              && (t == Open <==> e.Failure?)
              && (t == Closed <==>
                    e == Reset
                    || (e == Success && Successes(events, HalfOpenSince(c, events, i), i) + 1 == c.Probes()))
  {
    HistoryInvariant(c, events, i);
  }

  /** An open breaker was opened by a failure, whose time it remembers. */
  lemma {:induction false} OpenedByFailure(c: Config, events: seq<Event>, n: nat) returns (i: nat)
    requires n <= |events| && After(c, events, n).state == Open
    ensures i < n && events[i] == Failure(After(c, events, n).openedAt)
    ensures After(c, events, i).state != Open && forall k :: i < k <= n ==> After(c, events, k).state == Open
  {
    if After(c, events, n - 1).state == Open {
      i := OpenedByFailure(c, events, n - 1);
    } else {
      i := n - 1;
    }
  }

  // ---------------------------------------------------------------------------------------------
  // The outage bound
  // ---------------------------------------------------------------------------------------------

  /** Requests admitted by the events in `[i, n)`. */
  ghost function Admitted(c: Config, events: seq<Event>, i: nat, n: nat): nat
    requires i <= n <= |events|
  {
    if i == n then 0
    else
      Admitted(c, events, i, n - 1)
      + (if events[n - 1].Allow? && Admits(c, After(c, events, n - 1), events[n - 1].now) then 1 else 0)
  }

  ghost predicate Timed(e: Event) { e.Allow? || e.Failure? }

  /** The latest clock reading among the events in `[i, n)`, and `t0` before any. */
  ghost function Latest(events: seq<Event>, t0: real, i: nat, n: nat): real
    requires i <= n <= |events|
  {
    if i == n then t0
    else if Timed(events[n - 1]) then events[n - 1].now
    else Latest(events, t0, i, n - 1)
  }

  /** From event `i`, where the breaker has just opened at `t0`, to event `n` it does not close, nobody resets it
      and the clock does not go back. */
  ghost predicate Outage(c: Config, events: seq<Event>, t0: real, i: nat, n: nat)
    requires i <= n <= |events|
  {
    && After(c, events, i).state == Open
    && After(c, events, i).openedAt == t0
    && (forall k :: i <= k <= n ==> After(c, events, k).state != Closed)
    && (forall k :: i <= k < n ==> events[k] != Reset)
    && (forall k :: i <= k < n && Timed(events[k]) ==> Latest(events, t0, i, k) <= events[k].now)
  }

  /** `n` timeouts, one after another. */
  ghost function Timeouts(c: Config, n: nat): real {
    if n == 0 then 0.0 else Timeouts(c, n - 1) + c.recoveryTimeout
  }

  /** `n` recovery attempts, one after another. */
  ghost function Attempts(c: Config, n: nat): nat {
    if n == 0 then 0 else Attempts(c, n - 1) + c.Probes()
  }

  lemma {:induction false} AttemptsAndTimeouts(c: Config, n: nat)
    ensures Attempts(c, n) == c.Probes() * n
    ensures Timeouts(c, n) == n as real * c.recoveryTimeout
  {
    if n > 0 {
      AttemptsAndTimeouts(c, n - 1);
      assert n as real * c.recoveryTimeout == (n - 1) as real * c.recoveryTimeout + c.recoveryTimeout;
      assert c.Probes() * n == c.Probes() * (n - 1) + c.Probes();
    }
  }

  /** What one event of an outage can do. */
  lemma OutageStep(c: Config, s: Circuit, e: Event)
    requires s.state != Closed && Next(c, s, e).state != Closed && e != Reset
    ensures var after, admitted := Next(c, s, e), e.Allow? && Admits(c, s, e.now);
            match (s.state, after.state)
            case (Open, HalfOpen) =>
              e.Allow? && admitted && e.now >= s.openedAt + c.recoveryTimeout && after.halfOpenRequests == 1
            case (HalfOpen, HalfOpen) =>
              after.halfOpenRequests == s.halfOpenRequests + (if admitted then 1 else 0)
            case (HalfOpen, _) =>
              e.Failure? && after.openedAt == e.now
            case _ =>
              !admitted && after.openedAt == s.openedAt
  {
  }

  /** Each recovery attempt costs a whole timeout and lets at most `Probes` requests through. */
  lemma {:induction false} OutageCycles(c: Config, events: seq<Event>, t0: real, i: nat, n: nat) returns (cycles: nat)
    requires i <= n <= |events| && Outage(c, events, t0, i, n)
    ensures var s := After(c, events, n);
            && t0 + Timeouts(c, cycles) <= Latest(events, t0, i, n)
            && (s.state == Open ==>
                  && Admitted(c, events, i, n) <= Attempts(c, cycles)
                  && t0 + Timeouts(c, cycles) <= s.openedAt <= Latest(events, t0, i, n))
            && (s.state == HalfOpen ==>
                  && cycles > 0
                  && Admitted(c, events, i, n) <= Attempts(c, cycles - 1) + s.halfOpenRequests)
  {
    hide FailuresInARow, HalfOpenSince, Allows, Successes, Next, Admits;
    if i == n {
      cycles := 0;
    } else {
      cycles := OutageCycles(c, events, t0, i, n - 1);
      HistoryInvariant(c, events, n - 1);
      assert After(c, events, n - 1).state != Closed && After(c, events, n).state != Closed;
      OutageStep(c, After(c, events, n - 1), events[n - 1]);
      if After(c, events, n - 1).state == Open && After(c, events, n).state == HalfOpen {
        cycles := cycles + 1;
      }
    }
  }

  /** An outage of length `span` lets at most `Probes` requests through per whole timeout in it. */
  lemma OutageBound(c: Config, events: seq<Event>, t0: real, span: real, i: nat, n: nat)
    requires i <= n <= |events| && Outage(c, events, t0, i, n)
    requires c.recoveryTimeout > 0.0 && Latest(events, t0, i, n) <= t0 + span
    ensures Admitted(c, events, i, n) <= c.Probes() * (span / c.recoveryTimeout).Floor
  {
    var cycles := OutageCycles(c, events, t0, i, n);
    HistoryInvariant(c, events, n);
    assert Admitted(c, events, i, n) <= Attempts(c, cycles);
    WholeTimeouts(c, cycles, span);
  }

  lemma WholeTimeouts(c: Config, cycles: nat, span: real)
    requires c.recoveryTimeout > 0.0 && Timeouts(c, cycles) <= span
    ensures Attempts(c, cycles) <= c.Probes() * (span / c.recoveryTimeout).Floor
  {
    AttemptsAndTimeouts(c, cycles);
    QuotientAtLeast(cycles as real, span, c.recoveryTimeout);
    ProductGrows(c.Probes(), cycles, (span / c.recoveryTimeout).Floor);
  }

  lemma QuotientAtLeast(n: real, x: real, y: real)
    requires y > 0.0 && n * y <= x
    ensures n <= x / y
  {
    assert x == (x / y) * y;
  }

  lemma ProductGrows(m: nat, x: int, y: int)
    requires x <= y
    ensures m * x <= m * y
  {
  }

  // ---------------------------------------------------------------------------------------------
  // Which requests are admitted
  // ---------------------------------------------------------------------------------------------

  /** A breaker without enough failures in a row stays closed and admits every request. */
  lemma {:induction false} HealthyAdmitsAll(c: Config, events: seq<Event>, n: nat)
    requires n <= |events| && forall k :: 0 <= k <= n ==> FailuresInARow(events, k) < c.OpensAt()
    ensures After(c, events, n).state == Closed
    ensures Admitted(c, events, 0, n) == Allows(events, 0, n)
  {
    if n > 0 {
      HealthyAdmitsAll(c, events, n - 1);
      TransitionsIff(c, events, n - 1);
      assert FailuresInARow(events, n) < c.OpensAt();
    }
  }

  /** Exactly which requests are admitted, in terms of the history alone. */
  lemma AdmittedIff(c: Config, events: seq<Event>, i: nat)
    requires i < |events| && events[i].Allow?
    ensures var s := After(c, events, i);
            Admitted(c, events, i, i + 1)
            == match s.state
               case Closed => 1
               case Open => if events[i].now - s.openedAt >= c.recoveryTimeout then 1 else 0
               case HalfOpen => if 1 + Allows(events, HalfOpenSince(c, events, i), i) < c.Probes() then 1 else 0
  {
    HistoryInvariant(c, events, i);
    assert Admitted(c, events, i, i) == 0;
  }

  // ---------------------------------------------------------------------------------------------
  // The outage bound is attained
  // ---------------------------------------------------------------------------------------------

  ghost function Repeat(e: Event, n: nat): seq<Event> {
    seq(n, _ => e)
  }

  /** The earliest moment of the `n`-th recovery attempt of an outage that began at 0. */
  ghost function Earliest(c: Config, n: nat): real {
    if c.recoveryTimeout > 0.0 then Timeouts(c, n) else 0.0
  }

  /** A failing service probed at every earliest moment: open at 0, then `n` times `Probes` requests and a failure. */
  ghost function WorstOutage(c: Config, n: nat): seq<Event> {
    if n == 0 then Repeat(Failure(0.0), c.OpensAt())
    else WorstOutage(c, n - 1) + Repeat(Allow(Earliest(c, n)), c.Probes()) + [Failure(Earliest(c, n))]
  }

  lemma {:induction false} SamePrefix(c: Config, events: seq<Event>, more: seq<Event>, t0: real, i: nat, n: nat)
    requires i <= n <= |events| && events <= more
    ensures After(c, more, n) == After(c, events, n)
    ensures Latest(more, t0, i, n) == Latest(events, t0, i, n)
    ensures Admitted(c, more, i, n) == Admitted(c, events, i, n)
    decreases n
  {
    if n > 0 {
      assert more[n - 1] == events[n - 1];
      SamePrefix(c, events, more, t0, if i < n then i else 0, n - 1);
    }
  }

  lemma OutageOfPrefix(c: Config, events: seq<Event>, more: seq<Event>, t0: real, i: nat, n: nat)
    requires i <= n <= |events| && events <= more && Outage(c, events, t0, i, n)
    ensures Outage(c, more, t0, i, n)
  {
    forall k | i <= k <= n
      ensures After(c, more, k) == After(c, events, k) && Latest(more, t0, i, k) == Latest(events, t0, i, k)
    {
      SamePrefix(c, events, more, t0, i, k);
    }
  }

  lemma {:induction false} Opening(c: Config, n: nat)
    requires n <= c.OpensAt()
    ensures var s := After(c, Repeat(Failure(0.0), c.OpensAt()), n);
            && s.consecutiveFailures == n
            && s.state == (if n < c.OpensAt() then Closed else Open)
            && s.openedAt == 0.0
  {
    if n > 0 {
      Opening(c, n - 1);
    }
  }

  /** What holds after `m` of the requests of one recovery attempt. */
  ghost predicate Probing(c: Config, events: seq<Event>, i: nat, n: nat, m: nat, t: real, admitted: nat)
    requires i <= n <= |events|
  {
    var s := After(c, events, n);
    && Outage(c, events, 0.0, i, n)
    && Latest(events, 0.0, i, n) <= t
    && Admitted(c, events, i, n) == admitted + m
    && (if m == 0 then s.state == Open && t - s.openedAt >= c.recoveryTimeout
        else s.state == HalfOpen && s.halfOpenRequests == m)
  }

  lemma ProbeAgain(c: Config, events: seq<Event>, i: nat, n: nat, m: nat, t: real, admitted: nat)
    requires i <= n < |events| && m < c.Probes()
    requires Probing(c, events, i, n, m, t, admitted) && events[n] == Allow(t)
    ensures Probing(c, events, i, n + 1, m + 1, t, admitted)
  {
  }

  lemma {:induction false} ProbeAll(c: Config, events: seq<Event>, i: nat, n: nat, m: nat, t: real, admitted: nat)
    requires i <= n <= |events| && m <= c.Probes() && n + m <= |events|
    requires Probing(c, events, i, n, 0, t, admitted)
    requires forall k :: n <= k < n + m ==> events[k] == Allow(t)
    ensures Probing(c, events, i, n + m, m, t, admitted)
  {
    if m > 0 {
      ProbeAll(c, events, i, n, m - 1, t, admitted);
      ProbeAgain(c, events, i, n + m - 1, m - 1, t, admitted);
    }
  }

  /** One whole recovery attempt that ends in a failure: the breaker is open again, one timeout later. */
  lemma FailedAttempt(c: Config, events: seq<Event>, i: nat, n: nat, t: real, admitted: nat)
    requires i <= n && n + c.Probes() + 1 == |events|
    requires Probing(c, events, i, n, 0, t, admitted)
    requires events[n..] == Repeat(Allow(t), c.Probes()) + [Failure(t)]
    ensures var end := After(c, events, |events|);
            && Outage(c, events, 0.0, i, |events|)
            && Latest(events, 0.0, i, |events|) == t
            && Admitted(c, events, i, |events|) == admitted + c.Probes()
            && end.state == Open
            && end.openedAt == t
  {
    forall k | n <= k < |events|
      ensures events[k] == if k < n + c.Probes() then Allow(t) else Failure(t)
    {
      assert events[k] == events[n..][k - n];
    }
    ProbeAll(c, events, i, n, c.Probes(), t, admitted);
  }

  /** The bound of `OutageBound` is reached, whatever the timeout: `n` attempts let `n * Probes` requests through. */
  lemma {:induction false} OutageBoundIsReached(c: Config, n: nat)
    ensures var events, i := WorstOutage(c, n), c.OpensAt();
            && i <= |events|
            && Outage(c, events, 0.0, i, |events|)
            && Latest(events, 0.0, i, |events|) == Earliest(c, n)
            && Admitted(c, events, i, |events|) == Attempts(c, n)
            && After(c, events, |events|).state == Open
            && After(c, events, |events|).openedAt == Earliest(c, n)
  {
    var events, i := WorstOutage(c, n), c.OpensAt();
    if n == 0 {
      Opening(c, i);
    } else {
      hide Outage, After, Latest, Admitted;
      OutageBoundIsReached(c, n - 1);
      var before, t := WorstOutage(c, n - 1), Earliest(c, n);
      OutageOfPrefix(c, before, events, 0.0, i, |before|);
      SamePrefix(c, before, events, 0.0, i, |before|);
      assert Probing(c, events, i, |before|, 0, t, Attempts(c, n - 1));
      assert events[|before|..] == Repeat(Allow(t), c.Probes()) + [Failure(t)];
      FailedAttempt(c, events, i, |before|, t, Attempts(c, n - 1));
    }
  }

  /** No outage of length `span` admits more than `most` requests. */
  ghost predicate Bounded(c: Config, span: real, most: nat) {
    forall events: seq<Event>, t0: real, i: nat, n: nat ::
      i <= n <= |events| && Outage(c, events, t0, i, n) && Latest(events, t0, i, n) <= t0 + span
      ==> Admitted(c, events, i, n) <= most
  }

  /** With a timeout of zero or less an outage that takes no time admits any number of requests. */
  lemma NothingBoundsZeroTimeout(c: Config, span: real, most: nat)
    requires c.recoveryTimeout <= 0.0 && span >= 0.0
    ensures !Bounded(c, span, most)
  {
    hide Outage, Latest, Admitted, After;
    OutageBoundIsReached(c, most + 1);
    AttemptsAndTimeouts(c, most + 1);
    ProductGrows(most + 1, 1, c.Probes());
    var events, i := WorstOutage(c, most + 1), c.OpensAt();
    assert Admitted(c, events, i, |events|) > most;
  }

  /** The admissions of an outage are bounded by its length if and only if the timeout is positive. */
  lemma OutageIsBoundedIff(c: Config, span: real)
    requires span >= 0.0
    ensures (exists most: nat :: Bounded(c, span, most)) <==> c.recoveryTimeout > 0.0
    ensures c.recoveryTimeout > 0.0 ==> Bounded(c, span, c.Probes() * (span / c.recoveryTimeout).Floor)
  {
    hide Outage, Latest, Admitted;
    if c.recoveryTimeout > 0.0 {
      QuotientAtLeast(0.0, span, c.recoveryTimeout);
      ProductGrows(c.Probes(), 0, (span / c.recoveryTimeout).Floor);
      var most: nat := c.Probes() * (span / c.recoveryTimeout).Floor;
      forall events: seq<Event>, t0: real, i: nat, n: nat |
        i <= n <= |events| && Outage(c, events, t0, i, n) && Latest(events, t0, i, n) <= t0 + span
        ensures Admitted(c, events, i, n) <= most
      {
        OutageBound(c, events, t0, span, i, n);
      }
      assert Bounded(c, span, most);
    } else {
      forall most: nat
        ensures !Bounded(c, span, most)
      {
        NothingBoundsZeroTimeout(c, span, most);
      }
    }
  }

  // ---------------------------------------------------------------------------------------------
  // The breaker
  // ---------------------------------------------------------------------------------------------

  lemma Extended(c: Config, events: seq<Event>, e: Event)
    ensures After(c, events + [e], |events| + 1) == Next(c, After(c, events, |events|), e)
    ensures Admitted(c, events + [e], 0, |events| + 1)
         == Admitted(c, events, 0, |events|)
            + (if e.Allow? && Admits(c, After(c, events, |events|), e.now) then 1 else 0)
  {
    SamePrefix(c, events, events + [e], 0.0, 0, |events|);
  }

  /** One breaker, with its whole history as a ghost. */
  class CircuitBreaker {
    const config: Config
    var state: CircuitState
    var consecutiveFailures: nat
    var openedAt: real
    var halfOpenRequests: nat
    var halfOpenSuccesses: nat
    var transitionCount: nat
    ghost var events: seq<Event>

    ghost function State(): Circuit
      reads this
    {
      Circuit(state, consecutiveFailures, openedAt, halfOpenRequests, halfOpenSuccesses, transitionCount)
    }

    /** The fields are what the history leaves. */
    ghost predicate Valid()
      reads this
    {
      State() == After(config, events, |events|)
    }

    constructor (config: Config)
      ensures Valid() && this.config == config && events == []
      ensures state == Closed && consecutiveFailures == transitionCount == 0
    {
      this.config := config;
      state, consecutiveFailures, openedAt := Closed, 0, 0.0;
      halfOpenRequests, halfOpenSuccesses, transitionCount := 0, 0, 0;
      events := [];
    }

    method TransitionTo(next: CircuitState)
      modifies this`state, this`transitionCount
      ensures State() == old(State()).To(next)
      ensures state == next && transitionCount == old(transitionCount) + (if old(state) == next then 0 else 1)
    {
      if state != next {
        state := next;
        transitionCount := transitionCount + 1;
      }
    }

    /** Every counter is the count over the history that `CountersMean` gives, and fits its configured limit. */
    lemma Counters()
      requires Valid()
      ensures CountersMean(config, events, |events|)
    {
      HistoryInvariant(config, events, |events|);
    }

    method AllowRequest(now: real) returns (admitted: bool)
      requires Valid()
      modifies this
      ensures Valid() && events == old(events) + [Allow(now)]
      ensures Admitted(config, events, 0, |events|)
           == Admitted(config, old(events), 0, |old(events)|) + (if admitted then 1 else 0)
      ensures consecutiveFailures == old(consecutiveFailures) && openedAt == old(openedAt)
      ensures old(state) == Closed ==> admitted && State() == old(State())
      ensures old(state) == Open ==> (admitted <==> now - old(openedAt) >= config.recoveryTimeout)
      ensures old(state) == Open && !admitted ==> State() == old(State())
      ensures old(state) == Open && admitted ==>
                state == HalfOpen && halfOpenRequests == 1 && halfOpenSuccesses == 0
                && transitionCount == old(transitionCount) + 1
      ensures old(state) == HalfOpen ==> (admitted <==> old(halfOpenRequests) < config.halfOpenMaxRequests)
      ensures old(state) == HalfOpen ==>
                state == HalfOpen && halfOpenRequests == old(halfOpenRequests) + (if admitted then 1 else 0)
                && halfOpenSuccesses == old(halfOpenSuccesses) && transitionCount == old(transitionCount)
    {
      hide After, Admitted;
      Extended(config, events, Allow(now));
      events := events + [Allow(now)];
      match state
      case Closed =>
        admitted := true;
      case Open =>
        if now - openedAt >= config.recoveryTimeout {
          TransitionTo(HalfOpen);
          halfOpenRequests := 1;
          halfOpenSuccesses := 0;
          admitted := true;
        } else {
          admitted := false;
        }
      case HalfOpen =>
        if halfOpenRequests < config.halfOpenMaxRequests {
          halfOpenRequests := halfOpenRequests + 1;
          admitted := true;
        } else {
          admitted := false;
        }
    }

    method RecordSuccess()
      requires Valid()
      modifies this
      ensures Valid() && events == old(events) + [Success]
      ensures old(state) == Closed ==> State() == old(State()).(consecutiveFailures := 0)
      ensures old(state) == Open ==> State() == old(State())
      ensures old(state) == HalfOpen ==>
                halfOpenSuccesses == old(halfOpenSuccesses) + 1 && halfOpenRequests == old(halfOpenRequests)
                && (if halfOpenSuccesses >= config.halfOpenMaxRequests
                    then state == Closed && consecutiveFailures == 0 && transitionCount == old(transitionCount) + 1
                    else state == HalfOpen && consecutiveFailures == old(consecutiveFailures)
                         && transitionCount == old(transitionCount))
    {
      hide After, Admitted;
      Extended(config, events, Success);
      events := events + [Success];
      match state
      case Closed =>
        consecutiveFailures := 0;
      case HalfOpen =>
        halfOpenSuccesses := halfOpenSuccesses + 1;
        if halfOpenSuccesses >= config.halfOpenMaxRequests {
          TransitionTo(Closed);
          consecutiveFailures := 0;
        }
      case Open =>
    }

    method RecordFailure(now: real)
      requires Valid()
      modifies this
      ensures Valid() && events == old(events) + [Failure(now)]
      ensures old(state) == Open ==> State() == old(State())
      ensures old(state) == HalfOpen ==>
                state == Open && openedAt == now && transitionCount == old(transitionCount) + 1
                && consecutiveFailures == old(consecutiveFailures)
      ensures old(state) == Closed ==>
                consecutiveFailures == old(consecutiveFailures) + 1
                && (if consecutiveFailures >= config.failureThreshold
                    then state == Open && openedAt == now && transitionCount == old(transitionCount) + 1
                    else state == Closed && openedAt == old(openedAt) && transitionCount == old(transitionCount))
    {
      hide After, Admitted;
      Extended(config, events, Failure(now));
      events := events + [Failure(now)];
      match state
      case Closed =>
        consecutiveFailures := consecutiveFailures + 1;
        if consecutiveFailures >= config.failureThreshold {
          TransitionTo(Open);
          openedAt := now;
        }
      case HalfOpen =>
        TransitionTo(Open);
        openedAt := now;
      case Open =>
    }

    method ManualReset()
      requires Valid()
      modifies this
      ensures Valid() && events == old(events) + [Reset]
      ensures state == Closed && consecutiveFailures == halfOpenRequests == halfOpenSuccesses == 0
      ensures transitionCount == old(transitionCount) + (if old(state) == Closed then 0 else 1)
    {
      hide After, Admitted;
      Extended(config, events, Reset);
      events := events + [Reset];
      TransitionTo(Closed);
      consecutiveFailures := 0;
      halfOpenRequests := 0;
      halfOpenSuccesses := 0;
    }
  }
}
