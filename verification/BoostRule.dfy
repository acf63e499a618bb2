/** Exactly which events a boost observation records, in the values of the two observations. */
module BoostRule {
  import opened Collections
  import opened Wrappers
  import opened BoostEvents

  /** The value goes from below the threshold to it or above, or back. */
  predicate Passes(up: bool, previous: real, current: real, th: real) {
    if up then previous < th <= current else current < th <= previous
  }

  /** The value changed between two known ones. */
  predicate Changed(previous: Option<real>, current: Option<real>, up: bool, before: real, after: real) {
    && previous == Some(before) && current == Some(after)
    && if up then before < after else after < before
  }

  /** What one metric calls for: a first sight of a new value, a change, and a crossing of each threshold
      that the change passes. */
  predicate CallsFor(previous: Option<real>, current: Option<real>, e: Event) {
    match e
    case FirstSeen(_, value) => previous.None? && current == Some(value)
    case StateChange(_, up, before, after) => Changed(previous, current, up, before, after)
    case Crossing(_, up, before, after, th) =>
      && Changed(previous, current, up, before, after) && Passes(up, before, after, th)
      && (th == 1.0 || th == 10.0 || th == 100.0 || th == 1000.0)
  }

  function Times(b: bool): nat { if b then 1 else 0 }

  /** One of the first n thresholds. */
  predicate AmongFirst(n: nat, th: real)
    requires n <= |THRESHOLDS|
  {
    exists k :: 0 <= k < n && THRESHOLDS[k] == th
  }

  lemma AmongNext(n: nat, th: real)
    requires n < |THRESHOLDS|
    ensures Times(AmongFirst(n + 1, th)) == Times(AmongFirst(n, th)) + Times(th == THRESHOLDS[n])
  {
    if k :| 0 <= k < n && THRESHOLDS[k] == th {
      ThresholdsDistinct(k, n);
    }
    if th == THRESHOLDS[n] {
      assert AmongFirst(n + 1, th);
    }
  }

  /** A crossing by this change. */
  predicate CrossingOf(m: Metric, previous: real, current: real, e: Event) {
    && e.Crossing? && e.metric == m && e.previous == previous && e.current == current
    && Passes(e.up, previous, current, e.threshold)
  }

  lemma CrossIsOne(m: Metric, previous: real, current: real, th: real, e: Event)
    ensures multiset(Cross(m, previous, current, th))[e]
         == if CrossingOf(m, previous, current, e) then Times(e.threshold == th) else 0
  {
  }

  lemma {:induction false} CrossingsExactly(m: Metric, previous: real, current: real, n: nat, e: Event)
    requires n <= |THRESHOLDS|
    ensures multiset(Crossings(m, previous, current, n))[e]
         == if CrossingOf(m, previous, current, e) then Times(AmongFirst(n, e.threshold)) else 0
  {
    if 0 < n {
      CrossingsExactly(m, previous, current, n - 1, e);
      CrossIsOne(m, previous, current, THRESHOLDS[n - 1], e);
      if CrossingOf(m, previous, current, e) {
        AmongNext(n - 1, e.threshold);
      }
    }
  }

  lemma ThresholdsAre(th: real)
    ensures AmongFirst(|THRESHOLDS|, th) <==> th == 1.0 || th == 10.0 || th == 100.0 || th == 1000.0
  {
    assert THRESHOLDS[0] == 1.0 && THRESHOLDS[1] == 10.0 && THRESHOLDS[2] == 100.0 && THRESHOLDS[3] == 1000.0;
  }

  lemma ChangeEventsExactly(m: Metric, previous: real, current: real, e: Event)
    requires previous != current
    ensures multiset(MetricEvents(m, Some(previous), Some(current)))[e]
         == Times(e.metric == m && CallsFor(Some(previous), Some(current), e))
  {
    CrossingsExactly(m, previous, current, |THRESHOLDS|, e);
    if e.Crossing? {
      ThresholdsAre(e.threshold);
    }
  }

  lemma MetricEventsExactly(m: Metric, previous: Option<real>, current: Option<real>, e: Event)
    ensures multiset(MetricEvents(m, previous, current))[e] == Times(e.metric == m && CallsFor(previous, current, e))
  {
    if previous.Some? && current.Some? && previous != current {
      ChangeEventsExactly(m, previous.value, current.value, e);
    }
  }

  /** A step records each event that its metric calls for exactly once, and nothing else: a first sight
      when a value appears, a state change when two values differ. */
  lemma StepEventsExactly(previous: Option<Observation>, current: Observation, e: Event)
    ensures multiset(StepEvents(previous, current))[e]
         == Times(CallsFor(PreviousValue(previous, e.metric), current.Value(e.metric), e))
  {
    StepEventsByMetric(previous, current);
    MetricEventsExactly(ActiveBoostCount, PreviousValue(previous, ActiveBoostCount),
                        current.Value(ActiveBoostCount), e);
    MetricEventsExactly(Amount, PreviousValue(previous, Amount), current.Value(Amount), e);
    MetricEventsExactly(TotalAmount, PreviousValue(previous, TotalAmount), current.Value(TotalAmount), e);
  }

  // ---------------------------------------------------------------- order of the events

  function MetricRank(m: Metric): nat {
    match m
    case ActiveBoostCount => 0
    case Amount => 1
    case TotalAmount => 2
  }

  /** Metric by metric, the crossings after the change and in order of their thresholds. */
  predicate Precedes(a: Event, b: Event) {
    || MetricRank(a.metric) < MetricRank(b.metric)
    || (a.metric == b.metric && b.Crossing? && (a.Crossing? ==> a.threshold < b.threshold))
  }

  predicate InOrder(events: seq<Event>) {
    forall i, j :: 0 <= i < j < |events| ==> Precedes(events[i], events[j])
  }

  lemma InOrderAppend(a: seq<Event>, b: seq<Event>)
    requires InOrder(a) && InOrder(b)
    requires forall i, j :: 0 <= i < |a| && 0 <= j < |b| ==> Precedes(a[i], b[j])
    ensures InOrder(a + b)
  {
  }

  lemma {:induction false} CrossingsInOrder(m: Metric, previous: real, current: real, n: nat)
    requires n <= |THRESHOLDS|
    ensures InOrder(Crossings(m, previous, current, n))
    ensures forall i :: 0 <= i < |Crossings(m, previous, current, n)| ==>
      var e := Crossings(m, previous, current, n)[i];
      e.Crossing? && e.metric == m && exists k :: 0 <= k < n && THRESHOLDS[k] == e.threshold
  {
    if 0 < n {
      CrossingsInOrder(m, previous, current, n - 1);
      ThresholdsIncrease(n - 1);
      InOrderAppend(Crossings(m, previous, current, n - 1), Cross(m, previous, current, THRESHOLDS[n - 1]));
    }
  }

  lemma ThresholdsIncrease(n: nat)
    requires n < |THRESHOLDS|
    ensures forall k :: 0 <= k < n ==> THRESHOLDS[k] < THRESHOLDS[n]
  {
    assert THRESHOLDS == [1.0, 10.0, 100.0, 1000.0];
  }

  lemma MetricEventsInOrder(m: Metric, previous: Option<real>, current: Option<real>)
    ensures InOrder(MetricEvents(m, previous, current))
    ensures var events := MetricEvents(m, previous, current);
      forall i :: 0 <= i < |events| ==> events[i].metric == m
  {
    if previous.Some? && current.Some? && previous != current {
      CrossingsInOrder(m, previous.value, current.value, |THRESHOLDS|);
    }
  }

  /** The events of a step come metric by metric, each change before its crossings in threshold order. */
  lemma StepEventsInOrder(previous: Option<Observation>, current: Observation)
    ensures InOrder(StepEvents(previous, current))
  {
    StepEventsByMetric(previous, current);
    MetricEventsInOrder(ActiveBoostCount, PreviousValue(previous, ActiveBoostCount), current.Value(ActiveBoostCount));
    MetricEventsInOrder(Amount, PreviousValue(previous, Amount), current.Value(Amount));
    MetricEventsInOrder(TotalAmount, PreviousValue(previous, TotalAmount), current.Value(TotalAmount));
    InOrderAppend(EventsOfMetric(previous, current, ActiveBoostCount), EventsOfMetric(previous, current, Amount));
    InOrderAppend(EventsOfMetric(previous, current, ActiveBoostCount) + EventsOfMetric(previous, current, Amount),
                  EventsOfMetric(previous, current, TotalAmount));
  }
}
