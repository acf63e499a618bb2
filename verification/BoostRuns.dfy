/** Runs of the boost repository: the stored observations of one scope in the order they were stored,
    each compared with the newest stored one, and how the crossings of a threshold add up. */
module BoostRuns {
  import opened BoostEvents
  import opened ChangeLog
  import opened Collections
  import opened Wrappers

  type Row = Fact<Observation>

  // ---------------------------------------------------------------- the repository

  /** The stored observation a new one is compared with: the newest by receipt time, then id. */
  function Newest(rows: seq<Row>): Option<Observation> { Answer(Latest(rows)) }

  /** All events of the stored rows, in the order they were stored. */
  function Log(rows: seq<Row>): seq<Event> {
    if rows == [] then []
    else
      var n := |rows| - 1;
      Log(rows[..n]) + StepEvents(Newest(rows[..n]), rows[n].content)
  }

  lemma LogPush(rows: seq<Row>, row: Row)
    ensures Log(rows + [row]) == Log(rows) + StepEvents(Newest(rows), row.content)
  {
    assert (rows + [row])[..|rows|] == rows;
  }

  /** A record without any value has no content. */
  function ContentOf(fact: Observation): Option<Observation> {
    if fact == Observation(None, None, None) then None else Some(fact)
  }

  /** Exactly an observation without any of the three values is empty. */
  lemma EmptyExactly(fact: Observation)
    ensures ContentOf(fact).None? <==>
            fact.activeBoostCount.None? && fact.amount.None? && fact.totalAmount.None?
    ensures ContentOf(fact).Some? ==> ContentOf(fact).value == fact
  {
  }

  class BoostRepository {
    var rows: seq<Row>
    var events: seq<Event>

    constructor ()
      ensures rows == [] && events == []
    {
      rows, events := [], [];
    }

    /** The events are those of the stored rows, after every call. */
    predicate Valid()
      reads this
    {
      events == Log(rows)
    }

    method Insert(row: Row, previous: Option<Observation>)
      requires Valid() && previous == Newest(rows)
      modifies this
      ensures Valid() && rows == old(rows) + [row]
    {
      var more := RecordEvents(row.content, previous);
      LogPush(rows, row);
      rows, events := rows + [row], events + more;
    }

    method RecordIfChanged(id: nat, receivedAt: int, fact: Observation) returns (result: Result<Option<Row>, LogError>)
      requires Valid()
      modifies this
      ensures Valid()
      ensures (rows, result) == Record(old(rows), Received(id, receivedAt, ContentOf(fact)))
    {
      if fact.activeBoostCount.None? && fact.amount.None? && fact.totalAmount.None? {
        return Success(None);
      }
      var previous := Latest(rows);
      if previous.Some? && previous.value.content == fact {
        return Success(None);
      }
      var stored := Stored(rows, id);
      if stored.None? {
        Insert(Fact(id, receivedAt, fact), if previous.Some? then Some(previous.value.content) else None);
        return Success(Some(Fact(id, receivedAt, fact)));
      }
      if stored.value.content != fact {
        return Failure(IdentityConflict);
      }
      return Success(stored);
    }
  }

  // ---------------------------------------------------------------- telescoping

  predicate Alternates(directions: seq<bool>) {
    forall i :: 0 < i < |directions| ==> directions[i - 1] != directions[i]
  }

  function Ups(directions: seq<bool>): nat {
    if directions == [] then 0 else Ups(directions[..|directions| - 1]) + if directions[|directions| - 1] then 1 else 0
  }

  function Downs(directions: seq<bool>): nat {
    if directions == [] then 0 else Downs(directions[..|directions| - 1]) + if directions[|directions| - 1]
        then 0 else 1
  }

  function AtLeast(o: Observation, m: Metric, th: real): int
    requires o.Value(m).Some?
  {
    if o.Value(m).value >= th then 1 else 0
  }

  /** Directions that alternate and telescope from side `first` to side `last` (1 is at or above
      the threshold). */
  predicate Telescopes(directions: seq<bool>, first: int, last: int) {
    && Ups(directions) - Downs(directions) == last - first
    && Alternates(directions)
    && (if directions == [] then first == last
        else directions[|directions| - 1] == (last == 1) && directions[0] == (first == 0))
  }

  lemma TelescopeStep(directions: seq<bool>, first: int, last: int, next: int)
    requires first in {0, 1} && last in {0, 1} && next in {0, 1} && Telescopes(directions, first, last)
    ensures Telescopes(if last == next then directions else directions + [next == 1], first, next)
  {
    var after := directions + [next == 1];
    assert after[..|directions|] == directions;
    if last != next {
      forall i | 0 < i < |after|
        ensures after[i - 1] != after[i]
      {
        if i < |directions| {
          assert directions[i - 1] != directions[i];
        }
      }
    }
  }

  /** The metric is present in every stored row. */
  predicate Present(rows: seq<Row>, m: Metric) {
    rows != [] && forall i :: 0 <= i < |rows| ==> rows[i].content.Value(m).Some?
  }

  /** The side of row i: 1 at or above the threshold, 0 below it. */
  function Side(rows: seq<Row>, i: nat, m: Metric, th: real): int
    requires Present(rows, m) && i < |rows|
  {
    AtLeast(rows[i].content, m, th)
  }

  predicate RunTelescopes(rows: seq<Row>, m: Metric, th: real)
    requires Present(rows, m)
  {
    Telescopes(Directions(Log(rows), m, th), Side(rows, 0, m, th), Side(rows, |rows| - 1, m, th))
  }

  lemma {:induction false} LatestIsStored(rows: seq<Row>) returns (i: nat)
    requires rows != []
    ensures i < |rows| && Latest(rows) == Some(rows[i])
  {
    var n := |rows| - 1;
    i := n;
    if n != 0 && !Later(Latest(rows[..n]).value, rows[n]) {
      i := LatestIsStored(rows[..n]);
    }
  }

  /** The newest of the first n rows. */
  function NewestOf(rows: seq<Row>, n: nat): Observation
    requires 0 < n <= |rows|
  {
    var f := Latest(rows[..n]);
    if f.Some? then f.value.content else rows[n - 1].content
  }

  lemma NewestIsPresent(rows: seq<Row>, m: Metric, n: nat)
    requires Present(rows, m) && 0 < n <= |rows|
    ensures Newest(rows[..n]) == Some(NewestOf(rows, n)) && NewestOf(rows, n).Value(m).Some?
  {
    var i := LatestIsStored(rows[..n]);
    assert rows[..n][i] == rows[i];
  }

  /** The newest of the first n rows is on the side of the last of them. */
  predicate SameSide(rows: seq<Row>, n: nat, m: Metric, th: real)
    requires 0 < n <= |rows|
  {
    && NewestOf(rows, n).Value(m).Some? && rows[n - 1].content.Value(m).Some?
    && AtLeast(NewestOf(rows, n), m, th) == AtLeast(rows[n - 1].content, m, th)
  }

  /** The last row adds a direction when it is on the other side than the newest row before it. */
  lemma LogDirections(rows: seq<Row>, m: Metric, k: nat)
    requires k < |THRESHOLDS| && 1 < |rows| && Present(rows, m) && NewestOf(rows, |rows| - 1).Value(m).Some?
    ensures var n, th := |rows| - 1, THRESHOLDS[k];
      var before, after := AtLeast(NewestOf(rows, n), m, th), Side(rows, n, m, th);
      Directions(Log(rows), m, th)
      == if before == after then Directions(Log(rows[..n]), m, th) else Directions(Log(rows[..n]), m, th) + [after == 1]
  {
    var n := |rows| - 1;
    NewestIsPresent(rows, m, n);
    assert rows == rows[..n] + [rows[n]];
    PushedDirections(rows[..n], rows[n], NewestOf(rows, n), m, k);
    AddNothing(Directions(Log(rows[..n]), m, THRESHOLDS[k]));
  }

  lemma PushedDirections(rows: seq<Row>, row: Row, newest: Observation, m: Metric, k: nat)
    requires k < |THRESHOLDS| && Newest(rows) == Some(newest) && newest.Value(m).Some? && row.content.Value(m).Some?
    ensures Directions(Log(rows + [row]), m, THRESHOLDS[k])
         == Directions(Log(rows), m, THRESHOLDS[k])
             + Direction(newest.Value(m).value, row.content.Value(m).value, THRESHOLDS[k])
  {
    LogPush(rows, row);
    StepDirections(newest, row.content, m, k);
    DirectionsAppend(Log(rows), StepEvents(Some(newest), row.content), m, THRESHOLDS[k]);
  }

  lemma CountsPush(directions: seq<bool>, up: bool)
    ensures Ups(directions + [up]) == Ups(directions) + (if up then 1 else 0)
    ensures Downs(directions + [up]) == Downs(directions) + (if up then 0 else 1)
  {
    assert (directions + [up])[..|directions|] == directions;
  }

  /** A direction counted from another side than the last one breaks the balance. */
  lemma TelescopeBreaks(directions: seq<bool>, first: int, last: int, from: int, next: int)
    requires first in {0, 1} && last in {0, 1} && from in {0, 1} && next in {0, 1}
        && Telescopes(directions, first, last)
    requires from != last
    ensures !Telescopes(if from == next then directions else directions + [next == 1], first, next)
  {
    CountsPush(directions, next == 1);
  }

  /** A run that telescopes so far telescopes with one more row if and only if the newest stored row
      is on the side of the row stored last. */
  lemma TelescopesFurtherExactly(rows: seq<Row>, m: Metric, k: nat)
    requires k < |THRESHOLDS| && 1 < |rows| && Present(rows, m)
    requires RunTelescopes(rows[..|rows| - 1], m, THRESHOLDS[k])
    ensures RunTelescopes(rows, m, THRESHOLDS[k]) <==> SameSide(rows, |rows| - 1, m, THRESHOLDS[k])
  {
    var n, th := |rows| - 1, THRESHOLDS[k];
    NewestIsPresent(rows, m, n);
    LogDirections(rows, m, k);
    var directions := Directions(Log(rows[..n]), m, th);
    var first, last, next := Side(rows, 0, m, th), Side(rows, n - 1, m, th), Side(rows, n, m, th);
    var from := AtLeast(NewestOf(rows, n), m, th);
    if from == last {
      TelescopeStep(directions, first, last, next);
    } else {
      TelescopeBreaks(directions, first, last, from, next);
    }
  }

  lemma FirstRowHasNoDirection(row: Row, m: Metric, th: real)
    ensures Directions(Log([row]), m, th) == []
  {
    assert [row][..0] == [];
    assert Log([row]) == [] + StepEvents(None, row.content) == StepEvents(None, row.content);
    NoCrossingAtFirst(row.content, |METRICS|, m, th);
  }

  lemma FirstRowTelescopes(row: Row, m: Metric, th: real)
    requires row.content.Value(m).Some?
    ensures RunTelescopes([row], m, th)
  {
    FirstRowHasNoDirection(row, m, th);
  }

  lemma PresentPrefix(rows: seq<Row>, m: Metric, n: nat)
    requires Present(rows, m) && 0 < n <= |rows|
    ensures Present(rows[..n], m)
  {
  }

  /** The first n rows telescope. */
  predicate TelescopesAfter(rows: seq<Row>, n: nat, m: Metric, th: real)
    requires 0 < n <= |rows| && Present(rows, m)
  {
    PresentPrefix(rows, m, n);
    RunTelescopes(rows[..n], m, th)
  }

  lemma StepOfRun(rows: seq<Row>, n: nat, m: Metric, k: nat)
    requires k < |THRESHOLDS| && 0 < n < |rows| && Present(rows, m) && TelescopesAfter(rows, n, m, THRESHOLDS[k])
    ensures TelescopesAfter(rows, n + 1, m, THRESHOLDS[k]) <==> SameSide(rows, n, m, THRESHOLDS[k])
  {
    var prefix := rows[..n + 1];
    PresentPrefix(rows, m, n + 1);
    assert prefix[..n] == rows[..n] && prefix[n - 1] == rows[n - 1];
    TelescopesFurtherExactly(prefix, m, k);
  }

  /** Every prefix of the first n rows telescopes. */
  predicate AlwaysTelescopes(rows: seq<Row>, n: nat, m: Metric, th: real)
    requires n <= |rows| && Present(rows, m)
  {
    forall j :: 0 < j <= n ==> TelescopesAfter(rows, j, m, th)
  }

  predicate AlwaysSameSide(rows: seq<Row>, n: nat, m: Metric, th: real)
    requires n <= |rows|
  {
    forall j :: 0 < j < n ==> SameSide(rows, j, m, th)
  }

  lemma AlwaysOneMore(rows: seq<Row>, n: nat, m: Metric, th: real)
    requires 0 < n < |rows| && Present(rows, m)
    ensures AlwaysTelescopes(rows, n + 1, m, th)
        <==> AlwaysTelescopes(rows, n, m, th) && TelescopesAfter(rows, n + 1, m, th)
    ensures AlwaysSameSide(rows, n + 1, m, th) <==> AlwaysSameSide(rows, n, m, th) && SameSide(rows, n, m, th)
    ensures AlwaysTelescopes(rows, n, m, th) ==> TelescopesAfter(rows, n, m, th)
  {
  }

  /** While a metric stays present: at every moment of a run the crossings of a threshold alternate
      and telescope to the change of side between the first and the last stored row, if and only if
      each time a row was stored the newest row was on the side of the one stored last. */
  lemma {:induction false} AlwaysTelescopesExactly(rows: seq<Row>, n: nat, m: Metric, k: nat)
    requires k < |THRESHOLDS| && Present(rows, m) && 0 < n <= |rows|
    ensures AlwaysTelescopes(rows, n, m, THRESHOLDS[k]) <==> AlwaysSameSide(rows, n, m, THRESHOLDS[k])
  {
    if n == 1 {
      assert rows[..1] == [rows[0]];
      FirstRowTelescopes(rows[0], m, THRESHOLDS[k]);
    } else {
      AlwaysTelescopesExactly(rows, n - 1, m, k);
      AlwaysOneMore(rows, n - 1, m, THRESHOLDS[k]);
      if TelescopesAfter(rows, n - 1, m, THRESHOLDS[k]) {
        StepOfRun(rows, n - 1, m, k);
      }
    }
  }

  // ---------------------------------------------------------------- rows in receipt order

  /** Rows were stored in the order of receipt time, then id. */
  predicate InReceiptOrder(rows: seq<Row>) {
    forall i :: 0 < i < |rows| ==> Later(rows[i - 1], rows[i])
  }

  lemma {:induction false} NewestIsLast(rows: seq<Row>, n: nat)
    requires InReceiptOrder(rows) && 0 < n <= |rows|
    ensures Latest(rows[..n]) == Some(rows[n - 1])
  {
    assert rows[..n][..n - 1] == rows[..n - 1];
    if 1 < n {
      NewestIsLast(rows, n - 1);
    }
  }

  /** Rows stored in receipt order, ties by id: the crossings of each threshold alternate, and ups
      minus downs is the change of side between the first and the last row. */
  lemma CrossingsTelescope(rows: seq<Row>, m: Metric, k: nat)
    requires k < |THRESHOLDS| && Present(rows, m) && InReceiptOrder(rows)
    ensures RunTelescopes(rows, m, THRESHOLDS[k])
  {
    forall j | 0 < j < |rows|
      ensures SameSide(rows, j, m, THRESHOLDS[k])
    {
      NewestIsLast(rows, j);
    }
    AlwaysTelescopesExactly(rows, |rows|, m, k);
    assert rows[..|rows|] == rows;
    assert TelescopesAfter(rows, |rows|, m, THRESHOLDS[k]);
  }

  /** ... so they do for all records received at increasing times. */
  lemma ReceivedInOrderTelescopes(records: seq<Received<Observation>>, m: Metric, k: nat)
    requires k < |THRESHOLDS| && Increasing(records) && Present(Run(records), m)
    ensures RunTelescopes(Run(records), m, THRESHOLDS[k])
  {
    NoRepeatedRows(records);
    CrossingsTelescope(Run(records), m, k);
  }

  function AmountAt(id: nat, receivedAt: int, amount: real): Row {
    Fact(id, receivedAt, Observation(None, Some(amount), None))
  }

  /** Receipt order matters: a late row is compared with a newer one, and so is the row after it, so
      one threshold is crossed upwards twice in a row. */
  lemma OutOfOrderCrossesTwice()
    ensures var rows := [AmountAt(0, 10, 5.0), AmountAt(1, 5, 20.0), AmountAt(2, 12, 30.0)];
      && Directions(Log(rows), Amount, 10.0) == [true, true]
      && !RunTelescopes(rows, Amount, 10.0)
  {
    var a, b, c := AmountAt(0, 10, 5.0), AmountAt(1, 5, 20.0), AmountAt(2, 12, 30.0);
    assert THRESHOLDS[1] == 10.0;
    assert [] + [a] == [a] && [a] + [b] == [a, b] && [a, b] + [c] == [a, b, c];
    Pushed([], a, 0);
    Pushed([a], b, 0);
    FirstRowHasNoDirection(a, Amount, 10.0);
    PushedDirections([a], b, a.content, Amount, 1);
    PushedDirections([a, b], c, a.content, Amount, 1);
    CountsPush([], true);
    CountsPush([true], true);
    assert [] + [true] == [true] && [true] + [true] == [true, true];
  }
}
