/** Numeric boost changes and threshold crossings between successive stored observations. */
module BoostEvents {
  import opened Collections
  import opened Wrappers

  datatype Metric = ActiveBoostCount | Amount | TotalAmount

  datatype Observation = Observation(activeBoostCount: Option<real>, amount: Option<real>, totalAmount: Option<real>) {
    function Value(m: Metric): Option<real> {
      match m
      case ActiveBoostCount => activeBoostCount
      case Amount => amount
      case TotalAmount => totalAmount
    }
  }

  datatype Event =
    | FirstSeen(metric: Metric, value: real)
    | StateChange(metric: Metric, up: bool, previous: real, current: real)
    | Crossing(metric: Metric, up: bool, previous: real, current: real, threshold: real)

  const THRESHOLDS: seq<real> := [1.0, 10.0, 100.0, 1000.0]

  // ---------------------------------------------------------------- specification of one step

  predicate Crosses(previous: real, current: real, th: real) { (previous < th) != (current < th) }

  function Cross(m: Metric, previous: real, current: real, th: real): seq<Event> {
    if Crosses(previous, current, th) then [Crossing(m, current >= th, previous, current, th)] else []
  }

  /** The crossings of the first n thresholds, in threshold order. */
  function Crossings(m: Metric, previous: real, current: real, n: nat): seq<Event>
    requires n <= |THRESHOLDS|
  {
    if n == 0 then [] else Crossings(m, previous, current, n - 1) + Cross(m, previous, current, THRESHOLDS[n - 1])
  }

  function MetricEvents(m: Metric, previous: Option<real>, current: Option<real>): seq<Event> {
    if current.None? then []
    else if previous.None? then [FirstSeen(m, current.value)]
    else if previous.value == current.value then []
    else [StateChange(m, current.value > previous.value, previous.value, current.value)]
         + Crossings(m, previous.value, current.value, |THRESHOLDS|)
  }

  function PreviousValue(previous: Option<Observation>, m: Metric): Option<real> {
    if previous.Some? then previous.value.Value(m) else None
  }

  const METRICS: seq<Metric> := [ActiveBoostCount, Amount, TotalAmount]

  /** The events of the first n metrics, in metric order. */
  function EventsOf(previous: Option<Observation>, current: Observation, n: nat): seq<Event>
    requires n <= |METRICS|
  {
    if n == 0 then []
    else
      var m := METRICS[n - 1];
      EventsOf(previous, current, n - 1) + MetricEvents(m, PreviousValue(previous, m), current.Value(m))
  }

  function StepEvents(previous: Option<Observation>, current: Observation): seq<Event> {
    EventsOf(previous, current, |METRICS|)
  }

  // ---------------------------------------------------------------- the loop

  method RecordEvents(current: Observation, previous: Option<Observation>) returns (events: seq<Event>)
    ensures events == StepEvents(previous, current)
  {
    events := [];
    for k := 0 to |METRICS|
      invariant events == EventsOf(previous, current, k)
    {
      var more := RecordMetric(current, previous, METRICS[k]);
      events := events + more;
    }
  }

  method RecordMetric(current: Observation, previous: Option<Observation>, m: Metric) returns (events: seq<Event>)
    ensures events == MetricEvents(m, PreviousValue(previous, m), current.Value(m))
  {
    if current.Value(m).None? {
      return [];
    }
    var value := current.Value(m).value;
    var before := PreviousValue(previous, m);
    if before.None? {
      return [FirstSeen(m, value)];
    }
    var earlier := before.value;
    if earlier == value {
      return [];
    }
    events := [StateChange(m, value > earlier, earlier, value)];
    for k := 0 to |THRESHOLDS|
      invariant events == [StateChange(m, value > earlier, earlier, value)] + Crossings(m, earlier, value, k)
    {
      var threshold := THRESHOLDS[k];
      var crossedUp := earlier < threshold <= value;
      var crossedDown := earlier >= threshold > value;
      if crossedUp || crossedDown {
        events := events + [Crossing(m, crossedUp, earlier, value, threshold)];
      }
    }
  }

  // ---------------------------------------------------------------- directions of crossings

  /** The directions of the crossings of one threshold by one metric, in order. */
  function Directions(events: seq<Event>, m: Metric, th: real): seq<bool> {
    if events == [] then []
    else
      var e := events[|events| - 1];
      Directions(events[..|events| - 1], m, th)
      + if e.Crossing? && e.metric == m && e.threshold == th then [e.up] else []
  }

  lemma {:induction false} DirectionsAppend(a: seq<Event>, b: seq<Event>, m: Metric, th: real)
    ensures Directions(a + b, m, th) == Directions(a, m, th) + Directions(b, m, th)
  {
    if b == [] {
      assert a + b == a;
    } else {
      var n := |b| - 1;
      DirectionsAppend(a, b[..n], m, th);
      SplitLast(a, b);
    }
  }

  lemma {:induction false} OtherMetricHasNoDirection(events: seq<Event>, m: Metric, th: real)
    requires forall i :: 0 <= i < |events| && events[i].Crossing? ==> events[i].metric != m
    ensures Directions(events, m, th) == []
  {
    if events != [] {
      OtherMetricHasNoDirection(events[..|events| - 1], m, th);
    }
  }

  lemma DirectionsOfOne(e: Event, m: Metric, th: real)
    ensures Directions([e], m, th) == if e.Crossing? && e.metric == m && e.threshold == th then [e.up] else []
  {
    assert [e][..0] == [];
  }

  /** The direction recorded when a value moves across a threshold. */
  function Direction(previous: real, current: real, th: real): seq<bool> {
    if Crosses(previous, current, th) then [current >= th] else []
  }

  lemma CrossDirection(of: Metric, previous: real, current: real, threshold: real, m: Metric, th: real)
    ensures Directions(Cross(of, previous, current, threshold), m, th)
         == if of == m && threshold == th then Direction(previous, current, th) else []
  {
    if Crosses(previous, current, threshold) {
      DirectionsOfOne(Crossing(of, current >= threshold, previous, current, threshold), m, th);
    }
  }

  lemma {:induction false} CrossingsDirection(of: Metric, previous: real, current: real, n: nat, m: Metric, k: nat)
    requires n <= |THRESHOLDS| && k < |THRESHOLDS|
    ensures Directions(Crossings(of, previous, current, n), m, THRESHOLDS[k])
         == if of == m && k < n then Direction(previous, current, THRESHOLDS[k]) else []
  {
    if 0 < n {
      CrossingsDirection(of, previous, current, n - 1, m, k);
      DirectionsAppend(Crossings(of, previous, current, n - 1), Cross(of, previous, current, THRESHOLDS[n - 1]),
                       m, THRESHOLDS[k]);
      CrossDirection(of, previous, current, THRESHOLDS[n - 1], m, THRESHOLDS[k]);
      ThresholdsDistinct(n - 1, k);
      AddNothing(Directions(Crossings(of, previous, current, n - 1), m, THRESHOLDS[k]));
    }
  }

  lemma ThresholdsDistinct(i: nat, k: nat)
    requires i < |THRESHOLDS| && k < |THRESHOLDS|
    ensures THRESHOLDS[i] == THRESHOLDS[k] <==> i == k
  {
    assert THRESHOLDS == [1.0, 10.0, 100.0, 1000.0];
  }

  /** Every crossing shares the direction of the state change of the same step and metric. */
  lemma CrossingsShareDirection(m: Metric, previous: Option<real>, current: Option<real>)
    ensures var events := MetricEvents(m, previous, current);
      forall i :: 0 <= i < |events| && events[i].Crossing? ==>
        && events[0].StateChange? && events[0].metric == m && events[0].up == events[i].up
        && (events[i].up <==> events[i].previous < events[i].current)
  {
    if previous.Some? && current.Some? && previous != current {
      CrossingsFollow(m, previous.value, current.value, |THRESHOLDS|);
    }
  }

  lemma {:induction false} CrossingsFollow(m: Metric, previous: real, current: real, n: nat)
    requires n <= |THRESHOLDS|
    ensures forall i :: 0 <= i < |Crossings(m, previous, current, n)| ==>
      var e := Crossings(m, previous, current, n)[i];
      && e.Crossing? && e.metric == m && e.previous == previous && e.current == current
      && (e.up <==> previous < current)
  {
    if 0 < n {
      CrossingsFollow(m, previous, current, n - 1);
    }
  }

  /** The crossing of one threshold in one step. */
  lemma StepDirections(previous: Observation, current: Observation, m: Metric, k: nat)
    requires k < |THRESHOLDS| && previous.Value(m).Some? && current.Value(m).Some?
    ensures var th := THRESHOLDS[k];
      var a, b := previous.Value(m).value, current.Value(m).value;
      Directions(StepEvents(Some(previous), current), m, th) == Direction(a, b, th)
  {
    OwnDirections(Some(previous), current, m, k);
  }

  /** The direction of a step of an optional value. */
  function StepDirection(previous: Option<real>, current: Option<real>, th: real): seq<bool> {
    if previous.Some? && current.Some? then Direction(previous.value, current.value, th) else []
  }

  function EventsOfMetric(previous: Option<Observation>, current: Observation, m: Metric): seq<Event> {
    MetricEvents(m, PreviousValue(previous, m), current.Value(m))
  }

  /** The events of a step are those of the three metrics. */
  lemma StepEventsByMetric(previous: Option<Observation>, current: Observation)
    ensures StepEvents(previous, current)
         == EventsOfMetric(previous, current, ActiveBoostCount)
          + EventsOfMetric(previous, current, Amount)
          + EventsOfMetric(previous, current, TotalAmount)
  {
    assert METRICS == [ActiveBoostCount, Amount, TotalAmount];
    AddNothing(EventsOfMetric(previous, current, ActiveBoostCount));
    assert EventsOf(previous, current, 0) == [];
    assert EventsOf(previous, current, 1) == [] + EventsOfMetric(previous, current, ActiveBoostCount);
    assert EventsOf(previous, current, 2)
        == EventsOf(previous, current, 1) + EventsOfMetric(previous, current, Amount);
  }

  lemma DirectionsOfThree(a: seq<Event>, b: seq<Event>, c: seq<Event>, m: Metric, th: real)
    ensures Directions(a + b + c, m, th) == Directions(a, m, th) + Directions(b, m, th) + Directions(c, m, th)
  {
    DirectionsAppend(a + b, c, m, th);
    DirectionsAppend(a, b, m, th);
  }

  lemma OnlyOne(x: seq<bool>)
    ensures x + [] + [] == x && [] + x + [] == x && [] + [] + x == x
  {
  }

  /** Only the events of the metric itself contribute to its directions. */
  lemma OwnDirections(previous: Option<Observation>, current: Observation, m: Metric, k: nat)
    requires k < |THRESHOLDS|
    ensures Directions(StepEvents(previous, current), m, THRESHOLDS[k])
         == StepDirection(PreviousValue(previous, m), current.Value(m), THRESHOLDS[k])
  {
    StepEventsByMetric(previous, current);
    DirectionsOfThree(EventsOfMetric(previous, current, ActiveBoostCount), EventsOfMetric(previous, current, Amount),
                      EventsOfMetric(previous, current, TotalAmount), m, THRESHOLDS[k]);
    MetricDirections(ActiveBoostCount, PreviousValue(previous, ActiveBoostCount), current.Value(ActiveBoostCount),
        m, k);
    MetricDirections(Amount, PreviousValue(previous, Amount), current.Value(Amount), m, k);
    MetricDirections(TotalAmount, PreviousValue(previous, TotalAmount), current.Value(TotalAmount), m, k);
    OnlyOne(StepDirection(PreviousValue(previous, m), current.Value(m), THRESHOLDS[k]));
  }

  lemma MetricDirections(of: Metric, previous: Option<real>, current: Option<real>, m: Metric, k: nat)
    requires k < |THRESHOLDS|
    ensures Directions(MetricEvents(of, previous, current), m, THRESHOLDS[k])
         == if of == m then StepDirection(previous, current, THRESHOLDS[k]) else []
  {
    if previous.Some? && current.Some? && previous != current {
      ChangeDirections(of, previous.value, current.value, m, k);
    } else {
      OtherMetricHasNoDirection(MetricEvents(of, previous, current), m, THRESHOLDS[k]);
    }
  }

  lemma ChangeDirections(of: Metric, previous: real, current: real, m: Metric, k: nat)
    requires k < |THRESHOLDS| && previous != current
    ensures Directions(MetricEvents(of, Some(previous), Some(current)), m, THRESHOLDS[k])
         == if of == m then Direction(previous, current, THRESHOLDS[k]) else []
  {
    CrossingsDirection(of, previous, current, |THRESHOLDS|, m, k);
    OnlyCrossingsCount(StateChange(of, current > previous, previous, current),
                       Crossings(of, previous, current, |THRESHOLDS|), m, THRESHOLDS[k]);
  }

  lemma OnlyCrossingsCount(first: Event, rest: seq<Event>, m: Metric, th: real)
    requires !first.Crossing?
    ensures Directions([first] + rest, m, th) == Directions(rest, m, th)
  {
    DirectionsAppend([first], rest, m, th);
    DirectionsOfOne(first, m, th);
    AddNothing(Directions(rest, m, th));
  }

  lemma {:induction false} NoCrossingAtFirst(o: Observation, n: nat, m: Metric, th: real)
    requires n <= |METRICS|
    ensures Directions(EventsOf(None, o, n), m, th) == []
  {
    if 0 < n {
      NoCrossingAtFirst(o, n - 1, m, th);
      var more := MetricEvents(METRICS[n - 1], None, o.Value(METRICS[n - 1]));
      DirectionsAppend(EventsOf(None, o, n - 1), more, m, th);
      OtherMetricHasNoDirection(more, m, th);
    }
  }
}
