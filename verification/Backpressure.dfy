/**
 The backpressure controller: closed forms for its state over a whole history, and how much traffic the
 hysteresis demands for every switch of the throttling.

 The ratio of running to allowed requests and the two watermarks are `real`.
 */
module Backpressure {

  datatype FlowAction = Allow | Throttle | Reject

  datatype Config = Config(maxInflight: nat, highWatermark: real, lowWatermark: real, maxQueueLen: nat)

  datatype Event = Evaluate | Start | Complete | QueueLen(len: nat)

  datatype Controller = Controller(
    inflight: nat,
    queueLen: nat,
    throttling: bool,
    rejectedCount: nat,
    throttledCount: nat)

  const INITIAL := Controller(0, 0, false, 0, 0)

  predicate Rejects(c: Config, s: Controller) {
    s.queueLen >= c.maxQueueLen || s.inflight >= c.maxInflight
  }

  function Ratio(c: Config, s: Controller): real {
    if c.maxInflight > 0 then s.inflight as real / c.maxInflight as real else 0.0
  }

  /** The throttling after an evaluation that does not reject. */
  predicate Throttles(c: Config, s: Controller) {
    Ratio(c, s) >= c.highWatermark || (Ratio(c, s) > c.lowWatermark && s.throttling)
  }

  function Verdict(c: Config, s: Controller): FlowAction {
    if Rejects(c, s) then Reject else if Throttles(c, s) then Throttle else Allow
  }

  function Next(c: Config, s: Controller, e: Event): Controller {
    match e
    case Evaluate =>
      (match Verdict(c, s)
       case Reject => s.(rejectedCount := s.rejectedCount + 1)
       case Throttle => s.(throttling := true, throttledCount := s.throttledCount + 1)
       case Allow => s.(throttling := false))
    case Start => s.(inflight := s.inflight + 1)
    case Complete => s.(inflight := if s.inflight > 0 then s.inflight - 1 else 0)
    case QueueLen(len) => s.(queueLen := len)
  }

  /** The controller after the first `n` events. */
  ghost function After(c: Config, events: seq<Event>, n: nat): Controller
    requires n <= |events|
  {
    if n == 0 then INITIAL else Next(c, After(c, events, n - 1), events[n - 1])
  }

  // ---------------------------------------------------------------------------------------------
  // The saturating counter
  // ---------------------------------------------------------------------------------------------

  ghost function Count(events: seq<Event>, e: Event, i: nat, n: nat): nat
    requires i <= n <= |events|
  {
    if i == n then 0 else Count(events, e, i, n - 1) + (if events[n - 1] == e then 1 else 0)
  }

  /** Starts minus completes among the events in `[i, n)`. */
  ghost function Net(events: seq<Event>, i: nat, n: nat): int
    requires i <= n <= |events|
  {
    Count(events, Start, i, n) - Count(events, Complete, i, n)
  }

  /** `inflight` is the largest net of a suffix of the history. */
  lemma {:induction false} InflightIsLargestSuffix(c: Config, events: seq<Event>, n: nat)
    requires n <= |events|
    ensures forall i :: 0 <= i <= n ==> Net(events, i, n) <= After(c, events, n).inflight
    ensures exists i :: 0 <= i <= n && Net(events, i, n) == After(c, events, n).inflight
  {
    if n > 0 {
      InflightIsLargestSuffix(c, events, n - 1);
      forall i | 0 <= i < n
        ensures Net(events, i, n) <= After(c, events, n).inflight
      {
        assert Net(events, i, n - 1) <= After(c, events, n - 1).inflight;
      }
      assert Net(events, n, n) == 0;
      if After(c, events, n).inflight > 0 {
        var i :| 0 <= i <= n - 1 && Net(events, i, n - 1) == After(c, events, n - 1).inflight;
        assert Net(events, i, n) == After(c, events, n).inflight;
      }
    } else {
      assert Net(events, 0, 0) == 0;
    }
  }

  lemma {:induction false} CountSplits(events: seq<Event>, e: Event, i: nat, n: nat)
    requires i <= n <= |events|
    ensures Count(events, e, 0, n) == Count(events, e, 0, i) + Count(events, e, i, n)
    decreases n
  {
    if i < n {
      CountSplits(events, e, i, n - 1);
    }
  }

  /** Nothing is lost to the saturation exactly when no prefix completes more requests than it starts. */
  lemma InflightIsPlainNetIff(c: Config, events: seq<Event>, n: nat)
    requires n <= |events|
    ensures After(c, events, n).inflight == Net(events, 0, n) <==> forall k :: 0 <= k <= n ==> Net(events, 0, k) >= 0
  {
    InflightIsLargestSuffix(c, events, n);
    forall i | 0 <= i <= n
      ensures Net(events, 0, n) == Net(events, 0, i) + Net(events, i, n)
    {
      CountSplits(events, Start, i, n);
      CountSplits(events, Complete, i, n);
    }
  }

  // ---------------------------------------------------------------------------------------------
  // Who decides the throttling
  // ---------------------------------------------------------------------------------------------

  /** Event `i` is an evaluation that does not reject and sees a ratio outside the band between the watermarks. */
  ghost predicate Decisive(c: Config, events: seq<Event>, i: nat)
    requires i < |events|
  {
    var s := After(c, events, i);
    events[i] == Evaluate && !Rejects(c, s) && (Ratio(c, s) >= c.highWatermark || Ratio(c, s) <= c.lowWatermark)
  }

  lemma Initially(c: Config, events: seq<Event>)
    ensures After(c, events, 0) == INITIAL
  {
  }

  lemma OnlyDecisiveEvents(c: Config, events: seq<Event>, n: nat)
    requires 0 < n <= |events|
    ensures After(c, events, n).throttling
         == if Decisive(c, events, n - 1) then Ratio(c, After(c, events, n - 1)) >= c.highWatermark
            else After(c, events, n - 1).throttling
  {
    hide Ratio;
  }

  /** The throttling is what the last decisive evaluation said, and off when there was none. */
  lemma {:induction false} LastDecisiveEvaluationRules(c: Config, events: seq<Event>, n: nat)
    requires n <= |events|
    ensures forall i {:trigger Decisive(c, events, i)} ::
              0 <= i < n && Decisive(c, events, i) && (forall j :: i < j < n ==> !Decisive(c, events, j))
              ==> After(c, events, n).throttling == (Ratio(c, After(c, events, i)) >= c.highWatermark)
    ensures (forall i :: 0 <= i < n ==> !Decisive(c, events, i)) ==> !After(c, events, n).throttling
  {
    hide Decisive, After, Ratio;
    if n > 0 {
      LastDecisiveEvaluationRules(c, events, n - 1);
      OnlyDecisiveEvents(c, events, n);
      forall i {:trigger Decisive(c, events, i)} |
        0 <= i < n && Decisive(c, events, i) && forall j :: i < j < n ==> !Decisive(c, events, j)
        ensures After(c, events, n).throttling == (Ratio(c, After(c, events, i)) >= c.highWatermark)
      {
        if i < n - 1 {
          assert !Decisive(c, events, n - 1);
        }
      }
    } else {
      Initially(c, events);
    }
  }

  /** How many evaluations among the first `n` events came to `verdict`. */
  ghost function Verdicts(c: Config, events: seq<Event>, verdict: FlowAction, n: nat): nat
    requires n <= |events|
  {
    if n == 0 then 0
    else
      Verdicts(c, events, verdict, n - 1)
      + (if events[n - 1] == Evaluate && Verdict(c, After(c, events, n - 1)) == verdict then 1 else 0)
  }

  lemma {:induction false} StatisticsAreCounts(c: Config, events: seq<Event>, n: nat)
    requires n <= |events|
    ensures After(c, events, n).rejectedCount == Verdicts(c, events, Reject, n)
    ensures After(c, events, n).throttledCount == Verdicts(c, events, Throttle, n)
  {
    hide Throttles, Rejects;
    if n > 0 {
      StatisticsAreCounts(c, events, n - 1);
    }
  }

  // ---------------------------------------------------------------------------------------------
  // Verdicts, in terms of the history alone
  // ---------------------------------------------------------------------------------------------

  /** The queue length reported last. */
  ghost function LastQueueLen(events: seq<Event>, n: nat): nat
    requires n <= |events|
  {
    if n == 0 then 0
    else if events[n - 1].QueueLen? then events[n - 1].len
    else LastQueueLen(events, n - 1)
  }

  lemma {:induction false} QueueLenIsLast(c: Config, events: seq<Event>, n: nat)
    requires n <= |events|
    ensures After(c, events, n).queueLen == LastQueueLen(events, n)
  {
    hide Verdict;
    if n > 0 {
      QueueLenIsLast(c, events, n - 1);
    }
  }

  /** An evaluation rejects exactly when the reported queue or some suffix of starts less completes is too large. */
  lemma RejectsIff(c: Config, events: seq<Event>, i: nat)
    requires i < |events| && events[i] == Evaluate
    ensures Verdicts(c, events, Reject, i + 1) > Verdicts(c, events, Reject, i)
       <==> LastQueueLen(events, i) >= c.maxQueueLen
            || exists k :: 0 <= k <= i && Net(events, k, i) >= c.maxInflight
  {
    QueueLenIsLast(c, events, i);
    InflightIsLargestSuffix(c, events, i);
    hide Throttles, After;
  }

  /** An evaluation that does not reject throttles exactly when the throttling is on after it, and else allows. */
  lemma ThrottlesIff(c: Config, events: seq<Event>, i: nat)
    requires i < |events| && events[i] == Evaluate
    requires Verdicts(c, events, Reject, i + 1) == Verdicts(c, events, Reject, i)
    ensures Verdicts(c, events, Throttle, i + 1) > Verdicts(c, events, Throttle, i)
       <==> After(c, events, i + 1).throttling
    ensures Verdicts(c, events, Allow, i + 1) > Verdicts(c, events, Allow, i)
       <==> !After(c, events, i + 1).throttling
  {
    hide Throttles, Rejects;
  }

  /** A rejection leaves the throttling as it is. */
  lemma RejectionKeepsThrottling(c: Config, events: seq<Event>, i: nat)
    requires i < |events| && Verdicts(c, events, Reject, i + 1) > Verdicts(c, events, Reject, i)
    ensures After(c, events, i + 1).throttling == After(c, events, i).throttling
  {
    hide Throttles, Rejects;
  }

  // ---------------------------------------------------------------------------------------------
  // The hysteresis bound
  // ---------------------------------------------------------------------------------------------

  /** How often the first `n` events turned the throttling on, or off. */
  ghost function Switches(c: Config, events: seq<Event>, on: bool, n: nat): nat
    requires n <= |events|
  {
    if n == 0 then 0
    else
      Switches(c, events, on, n - 1)
      + (if After(c, events, n - 1).throttling != on && After(c, events, n).throttling == on then 1 else 0)
  }

  /** Running requests at the high watermark, and between the watermarks. */
  ghost function High(c: Config): real { c.highWatermark * c.maxInflight as real }
  ghost function Low(c: Config): real { c.lowWatermark * c.maxInflight as real }

  ghost function Gaps(c: Config, k: nat): real {
    if k == 0 then 0.0 else Gaps(c, k - 1) + (High(c) - Low(c))
  }

  lemma {:induction false} GapsIsProduct(c: Config, k: nat)
    ensures Gaps(c, k) == k as real * ((c.highWatermark - c.lowWatermark) * c.maxInflight as real)
  {
    var gap := (c.highWatermark - c.lowWatermark) * c.maxInflight as real;
    if k > 0 {
      GapsIsProduct(c, k - 1);
      assert k as real * gap == (k - 1) as real * gap + gap;
    }
  }

  lemma SwitchSeesWatermark(c: Config, s: Controller)
    requires !Rejects(c, s)
    ensures Ratio(c, s) >= c.highWatermark ==> s.inflight as real >= High(c)
    ensures Ratio(c, s) <= c.lowWatermark ==> s.inflight as real <= Low(c)
  {
    var m := c.maxInflight as real;
    assert m > 0.0 && Ratio(c, s) * m == s.inflight as real;
    Scale(c.highWatermark, Ratio(c, s), m);
    Scale(Ratio(c, s), c.lowWatermark, m);
  }

  lemma Scale(x: real, y: real, m: real)
    requires m > 0.0
    ensures x <= y ==> x * m <= y * m
  {
  }

  /** Starts spent so far, against the switches made so far. */
  ghost predicate StartsPaid(c: Config, events: seq<Event>, n: nat)
    requires n <= |events|
  {
    var s, ons, offs := After(c, events, n), Switches(c, events, true, n), Switches(c, events, false, n);
    var starts := Count(events, Start, 0, n) as real;
    if s.throttling then ons == offs + 1 && starts >= High(c) + Gaps(c, offs)
    else ons == offs && starts >= s.inflight as real + Gaps(c, offs)
  }

  lemma {:induction false} StartsAlwaysPaid(c: Config, events: seq<Event>, n: nat)
    requires n <= |events|
    ensures StartsPaid(c, events, n)
  {
    hide Ratio, High, Low;
    if n > 0 {
      StartsAlwaysPaid(c, events, n - 1);
      var s := After(c, events, n - 1);
      if events[n - 1] == Evaluate && !Rejects(c, s) {
        SwitchSeesWatermark(c, s);
      }
    }
  }

  /** Only an evaluation switches, and it sees the watermark of its direction. */
  lemma Switching(c: Config, events: seq<Event>, i: nat)
    requires i < |events| && After(c, events, i).throttling != After(c, events, i + 1).throttling
    ensures events[i] == Evaluate
    ensures After(c, events, i + 1).throttling ==> After(c, events, i).inflight as real >= High(c)
    ensures !After(c, events, i + 1).throttling ==> After(c, events, i).inflight as real <= Low(c)
  {
    hide Ratio, High, Low;
    SwitchSeesWatermark(c, After(c, events, i));
  }

  lemma GapIsProduct(c: Config)
    ensures High(c) - Low(c) == (c.highWatermark - c.lowWatermark) * c.maxInflight as real
  {
  }

  /** Flapping is bounded by traffic: the starts that the k-th switch-on needs before it. */
  lemma SwitchOnBound(c: Config, events: seq<Event>, i: nat)
    requires i < |events| && !After(c, events, i).throttling && After(c, events, i + 1).throttling
    ensures var k := Switches(c, events, true, i + 1);
            && k == Switches(c, events, false, i) + 1
            && Count(events, Start, 0, i) as real
               >= c.highWatermark * c.maxInflight as real
                  + (k - 1) as real * ((c.highWatermark - c.lowWatermark) * c.maxInflight as real)
  {
    hide After, Gaps;
    Switching(c, events, i);
    StartsAlwaysPaid(c, events, i);
    StartsAlwaysPaid(c, events, i + 1);
    GapsIsProduct(c, Switches(c, events, false, i));
  }

  lemma {:induction false} InflightMoves(c: Config, events: seq<Event>, j: nat, i: nat)
    requires j <= i <= |events|
    ensures After(c, events, i).inflight >= After(c, events, j).inflight - Count(events, Complete, j, i)
    ensures After(c, events, i).inflight <= After(c, events, j).inflight + Count(events, Start, j, i)
    decreases i
  {
    if j < i {
      InflightMoves(c, events, j, i - 1);
    }
  }

  /** Between a switch and the next one back, the gap between the watermarks has been crossed: by completes after a
      switch-on, by starts after a switch-off. */
  lemma PhaseBound(c: Config, events: seq<Event>, j: nat, i: nat)
    requires j < i < |events|
    requires After(c, events, j).throttling != After(c, events, j + 1).throttling
    requires After(c, events, i).throttling != After(c, events, i + 1).throttling
    requires After(c, events, j + 1).throttling == After(c, events, i).throttling
    ensures var spent := if After(c, events, i).throttling then Complete else Start;
            Count(events, spent, j, i) as real >= (c.highWatermark - c.lowWatermark) * c.maxInflight as real
  {
    hide After, High, Low;
    Switching(c, events, j);
    Switching(c, events, i);
    GapIsProduct(c);
    InflightMoves(c, events, j, i);
  }

  // ---------------------------------------------------------------------------------------------
  // The controller
  // ---------------------------------------------------------------------------------------------

  lemma {:induction false} SamePrefix(c: Config, events: seq<Event>, more: seq<Event>, n: nat)
    requires n <= |events| && events <= more
    ensures After(c, more, n) == After(c, events, n)
  {
    if n > 0 {
      SamePrefix(c, events, more, n - 1);
      assert more[n - 1] == events[n - 1];
    }
  }

  lemma Extended(c: Config, events: seq<Event>, e: Event)
    ensures After(c, events + [e], |events| + 1) == Next(c, After(c, events, |events|), e)
  {
    SamePrefix(c, events, events + [e], |events|);
  }

  /** One controller, with its whole history as a ghost. */
  class BackpressureController {
    const config: Config
    var inflight: nat
    var queueLen: nat
    var throttling: bool
    var rejectedCount: nat
    var throttledCount: nat
    ghost var events: seq<Event>

    ghost function State(): Controller
      reads this
    {
      Controller(inflight, queueLen, throttling, rejectedCount, throttledCount)
    }

    /** The fields are what the history leaves. */
    ghost predicate Valid()
      reads this
    {
      State() == After(config, events, |events|)
    }

    constructor (config: Config)
      ensures Valid() && this.config == config && events == []
    {
      this.config := config;
      inflight, queueLen, throttling, rejectedCount, throttledCount := 0, 0, false, 0, 0;
      events := [];
    }

    method EvaluateFlow() returns (action: FlowAction)
      requires Valid()
      modifies this
      ensures Valid() && events == old(events) + [Evaluate]
      ensures inflight == old(inflight) && queueLen == old(queueLen)
      ensures action == Reject <==> queueLen >= config.maxQueueLen || inflight >= config.maxInflight
      ensures action == Reject ==>
                throttling == old(throttling) && rejectedCount == old(rejectedCount) + 1
                && throttledCount == old(throttledCount)
      ensures action != Reject ==>
                && config.maxInflight > 0
                && (var ratio := inflight as real / config.maxInflight as real;
                    throttling == if ratio >= config.highWatermark then true
                                  else if ratio <= config.lowWatermark then false else old(throttling))
                && (action == Throttle <==> throttling)
                && throttledCount == old(throttledCount) + (if throttling then 1 else 0)
                && rejectedCount == old(rejectedCount)
    {
      hide After;
      Extended(config, events, Evaluate);
      events := events + [Evaluate];
      if queueLen >= config.maxQueueLen {
        rejectedCount := rejectedCount + 1;
        return Reject;
      }
      if inflight >= config.maxInflight {
        rejectedCount := rejectedCount + 1;
        return Reject;
      }
      var ratio := if config.maxInflight > 0 then inflight as real / config.maxInflight as real else 0.0;
      if ratio >= config.highWatermark {
        throttling := true;
      } else if ratio <= config.lowWatermark {
        throttling := false;
      }
      if throttling {
        throttledCount := throttledCount + 1;
        action := Throttle;
      } else {
        action := Allow;
      }
    }

    method OnRequestStart()
      requires Valid()
      modifies this
      ensures Valid() && events == old(events) + [Start]
      ensures State() == old(State()).(inflight := old(inflight) + 1)
    {
      Extended(config, events, Start);
      events := events + [Start];
      inflight := inflight + 1;
    }

    method OnRequestComplete()
      requires Valid()
      modifies this
      ensures Valid() && events == old(events) + [Complete]
      ensures State() == old(State()).(inflight := if old(inflight) == 0 then 0 else old(inflight) - 1)
    {
      Extended(config, events, Complete);
      events := events + [Complete];
      inflight := if inflight > 0 then inflight - 1 else 0;
    }

    method UpdateQueueLen(len: nat)
      requires Valid()
      modifies this
      ensures Valid() && events == old(events) + [QueueLen(len)]
      ensures State() == old(State()).(queueLen := len)
    {
      Extended(config, events, QueueLen(len));
      events := events + [QueueLen(len)];
      queueLen := len;
    }
  }
}
