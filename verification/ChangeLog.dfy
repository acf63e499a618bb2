/** The change-only log of one deduplication scope. Content digests are abstract values; the row
    id is an injective function of the idempotency key, so the id stands for both. */
module ChangeLog {
  import opened Wrappers

  datatype Fact<+C> = Fact(id: nat, receivedAt: int, content: C)

  /** A received record; a record whose fields are all absent has no content. */
  datatype Received<+C> = Received(id: nat, receivedAt: int, content: Option<C>)

  datatype LogError = IdentityConflict

  /** ORDER BY received_at, id. */
  predicate Later<C(==)>(a: Fact<C>, b: Fact<C>) {
    a.receivedAt < b.receivedAt || (a.receivedAt == b.receivedAt && a.id <= b.id)
  }

  /** The latest fact received at or before t. */
  function AsOf<C(==)>(log: seq<Fact<C>>, t: int): Option<Fact<C>> {
    if log == [] then None
    else
      var before := AsOf(log[..|log| - 1], t);
      var last := log[|log| - 1];
      if last.receivedAt <= t && (before.None? || Later(before.value, last)) then Some(last) else before
  }

  /** The latest fact. */
  function Latest<C(==)>(log: seq<Fact<C>>): Option<Fact<C>> {
    if log == [] then None
    else
      var before := Latest(log[..|log| - 1]);
      var last := log[|log| - 1];
      if before.None? || Later(before.value, last) then Some(last) else before
  }

  function Answer<C(==)>(fact: Option<Fact<C>>): Option<C> {
    if fact.Some? then Some(fact.value.content) else None
  }

  function Stored<C(==)>(log: seq<Fact<C>>, id: nat): Option<Fact<C>> {
    if log == [] then None
    else if log[|log| - 1].id == id then Some(log[|log| - 1])
    else Stored(log[..|log| - 1], id)
  }

  /** The record differs from the latest stored fact. */
  predicate Changes<C(==)>(log: seq<Fact<C>>, r: Received<C>) {
    r.content.Some? && Answer(Latest(log)) != r.content
  }

  /** The log after a record, and the stored fact if there is one. */
  function Record<C(==)>(log: seq<Fact<C>>, r: Received<C>): (seq<Fact<C>>, Result<Option<Fact<C>>, LogError>) {
    if !Changes(log, r) then (log, Success(None))
    else
      match Stored(log, r.id)
      case None =>
        var fact := Fact(r.id, r.receivedAt, r.content.value);
        (log + [fact], Success(Some(fact)))
      case Some(existing) =>
        (log, if existing.content == r.content.value then Success(Some(existing)) else Failure(IdentityConflict))
  }

  function Run<C(==)>(records: seq<Received<C>>): seq<Fact<C>> {
    if records == [] then [] else Record(Run(records[..|records| - 1]), records[|records| - 1]).0
  }

  /** The log that drops nothing but empty records. */
  function FullLog<C(==)>(records: seq<Received<C>>): seq<Fact<C>> {
    if records == [] then []
    else
      var last := records[|records| - 1];
      var before := FullLog(records[..|records| - 1]);
      if last.content.Some? then before + [Fact(last.id, last.receivedAt, last.content.value)] else before
  }

  // ---------------------------------------------------------------- what the queries mean

  lemma {:induction false} AsOfIsLatestVisible<C>(log: seq<Fact<C>>, t: int)
    ensures match AsOf(log, t)
            case None => forall i :: 0 <= i < |log| ==> t < log[i].receivedAt
            case Some(f) => && f in log && f.receivedAt <= t
                            && forall i :: 0 <= i < |log| && log[i].receivedAt <= t ==> Later(log[i], f)
  {
    if log != [] {
      AsOfIsLatestVisible(log[..|log| - 1], t);
    }
  }

  lemma {:induction false} AsOfLateIsLatest<C>(log: seq<Fact<C>>, t: int)
    requires forall i :: 0 <= i < |log| ==> log[i].receivedAt <= t
    ensures AsOf(log, t) == Latest(log)
  {
    if log != [] {
      AsOfLateIsLatest(log[..|log| - 1], t);
    }
  }

  // ---------------------------------------------------------------- runs in receipt order

  predicate Increasing<C(==)>(records: seq<Received<C>>) {
    forall i, j :: 0 <= i < j < |records| ==> records[i].receivedAt < records[j].receivedAt
  }

  predicate Before<C(==)>(log: seq<Fact<C>>, t: int) {
    forall i :: 0 <= i < |log| ==> log[i].receivedAt < t
  }

  lemma {:induction false} LogsAreBefore<C>(records: seq<Received<C>>, t: int)
    requires forall i :: 0 <= i < |records| ==> records[i].receivedAt < t
    ensures Before(Run(records), t) && Before(FullLog(records), t)
  {
    if records != [] {
      LogsAreBefore(records[..|records| - 1], t);
    }
  }

  /** Appending a fact later than all others changes the answers exactly from its receipt on. */
  lemma AppendAnswers<C>(log: seq<Fact<C>>, fact: Fact<C>, t: int)
    requires Before(log, fact.receivedAt)
    ensures AsOf(log + [fact], t) == if fact.receivedAt <= t then Some(fact) else AsOf(log, t)
    ensures Latest(log + [fact]) == Some(fact)
  {
    assert (log + [fact])[..|log|] == log;
    AsOfIsLatestVisible(log, t);
    AsOfLateIsLatest(log, fact.receivedAt);
    AsOfIsLatestVisible(log, fact.receivedAt);
  }

  /** The stored log answers like the full log at every moment. */
  ghost predicate Refines<C>(records: seq<Received<C>>) {
    forall t :: AnswersAgree(records, t)
  }

  predicate AnswersAgree<C(==)>(records: seq<Received<C>>, t: int) {
    Answer(AsOf(Run(records), t)) == Answer(AsOf(FullLog(records), t))
  }

  /** No record that changes the content reuses the identity of a stored row. */
  predicate NoReplayedChange<C(==)>(records: seq<Received<C>>) {
    forall i :: 0 <= i < |records| && Changes(Run(records[..i]), records[i]) ==>
      Stored(Run(records[..i]), records[i].id).None?
  }

  /** The last step keeps every earlier answer, and its own answer is right exactly when it did
      not replay a stored identity with changed content. */
  lemma StepAnswers<C>(records: seq<Received<C>>, t: int)
    requires records != [] && Increasing(records) && Refines(records[..|records| - 1])
    ensures var n := |records| - 1;
      var replayed := Changes(Run(records[..n]), records[n]) && Stored(Run(records[..n]), records[n].id).Some?;
      && (t < records[n].receivedAt || !replayed ==> AnswersAgree(records, t))
      && (replayed && t == records[n].receivedAt ==> !AnswersAgree(records, t))
  {
    var n := |records| - 1;
    var r := records[n];
    var log, full := Run(records[..n]), FullLog(records[..n]);
    LogsAreBefore(records[..n], r.receivedAt);
    assert AnswersAgree(records[..n], t);
    assert AnswersAgree(records[..n], r.receivedAt);
    if r.content.Some? {
      var fact := Fact(r.id, r.receivedAt, r.content.value);
      AppendAnswers(full, fact, t);
      AppendAnswers(log, fact, t);
      LateAnswer(log, r.receivedAt, t);
    }
  }

  lemma LateAnswer<C>(log: seq<Fact<C>>, from: int, t: int)
    requires Before(log, from)
    ensures from <= t ==> AsOf(log, t) == Latest(log)
  {
    if from <= t {
      AsOfLateIsLatest(log, t);
    }
  }

  lemma PrefixFacts<C>(records: seq<Received<C>>, n: nat)
    requires n <= |records|
    ensures Increasing(records) ==> Increasing(records[..n])
    ensures NoReplayedChange(records) ==> NoReplayedChange(records[..n])
  {
    if NoReplayedChange(records) {
      forall i | 0 <= i < n && Changes(Run(records[..n][..i]), records[..n][i])
        ensures Stored(Run(records[..n][..i]), records[..n][i].id).None?
      {
        assert records[..n][..i] == records[..i];
      }
    }
  }

  /** With strictly increasing receipt times the change-only log refines the full log if no
      changed record replays a stored identity ... */
  lemma {:induction false} FreshChangesRefine<C>(records: seq<Received<C>>)
    requires Increasing(records) && NoReplayedChange(records)
    ensures Refines(records)
  {
    if records != [] {
      var n := |records| - 1;
      PrefixFacts(records, n);
      FreshChangesRefine(records[..n]);
      forall t
        ensures AnswersAgree(records, t)
      {
        StepAnswers(records, t);
      }
    }
  }

  /** Record i is the first that changes the content under the identity of a stored row. */
  predicate FirstReplayAt<C(==)>(records: seq<Received<C>>, i: nat) {
    && i < |records| && NoReplayedChange(records[..i])
    && Changes(Run(records[..i]), records[i]) && Stored(Run(records[..i]), records[i].id).Some?
  }

  /** ... and only then: the first replay is answered wrongly for ever at its own receipt time. */
  lemma {:induction false} ReplayBreaksRefinement<C>(records: seq<Received<C>>, i: nat)
    requires Increasing(records) && FirstReplayAt(records, i)
    ensures !AnswersAgree(records, records[i].receivedAt)
  {
    var n := |records| - 1;
    if i == n {
      LastReplayBreaks(records);
    } else {
      EarlierReplay(records, i);
      ReplayBreaksRefinement(records[..n], i);
      LaterRecordIsInvisible(records, records[i].receivedAt);
    }
  }

  lemma EarlierReplay<C>(records: seq<Received<C>>, i: nat)
    requires Increasing(records) && FirstReplayAt(records, i) && i < |records| - 1
    ensures var n := |records| - 1;
      && Increasing(records[..n]) && FirstReplayAt(records[..n], i) && records[..n][i] == records[i]
      && records[i].receivedAt < records[n].receivedAt
  {
    assert records[..|records| - 1][..i] == records[..i];
  }

  lemma LastReplayBreaks<C>(records: seq<Received<C>>)
    requires Increasing(records) && records != [] && FirstReplayAt(records, |records| - 1)
    ensures !AnswersAgree(records, records[|records| - 1].receivedAt)
  {
    var n := |records| - 1;
    PrefixFacts(records, n);
    FreshChangesRefine(records[..n]);
    StepAnswers(records, records[n].receivedAt);
  }

  /** A record does not change answers before its receipt. */
  lemma LaterRecordIsInvisible<C>(records: seq<Received<C>>, t: int)
    requires records != [] && t < records[|records| - 1].receivedAt
    ensures AnswersAgree(records, t) <==> AnswersAgree(records[..|records| - 1], t)
  {
    var n := |records| - 1;
    var log := Run(records[..n]);
    if Changes(log, records[n]) && Stored(log, records[n].id).None? {
      var fact := Fact(records[n].id, records[n].receivedAt, records[n].content.value);
      assert (log + [fact])[..|log|] == log;
    }
    if records[n].content.Some? {
      var fact := Fact(records[n].id, records[n].receivedAt, records[n].content.value);
      assert (FullLog(records[..n]) + [fact])[..|FullLog(records[..n])|] == FullLog(records[..n]);
    }
  }

  lemma {:induction false} FirstReplay<C>(records: seq<Received<C>>) returns (i: nat)
    requires !NoReplayedChange(records)
    ensures FirstReplayAt(records, i)
  {
    var n := |records| - 1;
    if NoReplayedChange(records[..n]) {
      forall k | 0 <= k < n && Changes(Run(records[..k]), records[k])
        ensures Stored(Run(records[..k]), records[k].id).None?
      {
        assert records[..n][..k] == records[..k] && records[..n][k] == records[k];
      }
      i := n;
    } else {
      i := FirstReplay(records[..n]);
      assert records[..n][..i] == records[..i] && records[..n][i] == records[i];
    }
  }

  /** For strictly increasing receipt times: the change-only log answers like the full log at
      every moment if and only if no changed record replays a stored identity. */
  lemma RefinesExactly<C>(records: seq<Received<C>>)
    requires Increasing(records)
    ensures Refines(records) <==> NoReplayedChange(records)
  {
    if NoReplayedChange(records) {
      FreshChangesRefine(records);
    } else {
      var i := FirstReplay(records);
      ReplayBreaksRefinement(records, i);
    }
  }

  /** Distinct identities are enough. */
  lemma DistinctIdsRefine<C>(records: seq<Received<C>>)
    requires Increasing(records)
    requires forall i, j :: 0 <= i < j < |records| ==> records[i].id != records[j].id
    ensures Refines(records)
  {
    forall i | 0 <= i < |records| && Changes(Run(records[..i]), records[i])
      ensures Stored(Run(records[..i]), records[i].id).None?
    {
      StoredWasReceived(records[..i], records[i].id);
    }
    FreshChangesRefine(records);
  }

  lemma {:induction false} StoredWasReceived<C>(records: seq<Received<C>>, id: nat)
    requires forall i :: 0 <= i < |records| ==> records[i].id != id
    ensures Stored(Run(records), id).None?
  {
    if records != [] {
      var n := |records| - 1;
      StoredWasReceived(records[..n], id);
      var log := Run(records[..n]);
      if Changes(log, records[n]) && Stored(log, records[n].id).None? {
        var fact := Fact(records[n].id, records[n].receivedAt, records[n].content.value);
        assert (log + [fact])[..|log|] == log;
      }
    }
  }

  /** No two consecutive rows are equal, rows are in receipt order, the last is the latest. */
  predicate WellOrdered<C(==)>(log: seq<Fact<C>>) {
    && (forall i :: 0 < i < |log| ==> log[i - 1].content != log[i].content)
    && (forall i :: 0 < i < |log| ==> log[i - 1].receivedAt < log[i].receivedAt)
    && (log != [] ==> Latest(log) == Some(log[|log| - 1]))
  }

  lemma PushKeepsOrder<C>(log: seq<Fact<C>>, fact: Fact<C>)
    requires WellOrdered(log) && Before(log, fact.receivedAt) && Answer(Latest(log)) != Some(fact.content)
    ensures WellOrdered(log + [fact])
  {
    AppendAnswers(log, fact, fact.receivedAt);
  }

  /** In receipt order no two consecutive stored rows are equal, and rows stay in order. */
  lemma {:induction false} NoRepeatedRows<C>(records: seq<Received<C>>)
    requires Increasing(records)
    ensures WellOrdered(Run(records))
  {
    if records != [] {
      var n := |records| - 1;
      PrefixFacts(records, n);
      NoRepeatedRows(records[..n]);
      LogsAreBefore(records[..n], records[n].receivedAt);
      if Changes(Run(records[..n]), records[n]) {
        PushKeepsOrder(Run(records[..n]), Fact(records[n].id, records[n].receivedAt, records[n].content.value));
      }
    }
  }

  /** Such a replay exists: a stored identity comes back after another content. */
  lemma ReplayExists<C>(a: C, b: C)
    requires a != b
    ensures FirstReplayAt([Received(0, 1, Some(a)), Received(1, 2, Some(b)), Received(0, 3, Some(a))], 2)
  {
    var records := [Received(0, 1, Some(a)), Received(1, 2, Some(b)), Received(0, 3, Some(a))];
    var first, second := Fact(0, 1, a), Fact(1, 2, b);
    assert records[..0] == [] && records[..1] == [] + [records[0]] && records[..2] == records[..1] + [records[1]];
    RunPush([], records[0]);
    Pushed([], first, 1);
    RunPush(records[..1], records[1]);
    Pushed([first], second, 0);
    Pushed([], first, 0);
    assert [] + [first] == [first];
  }

  lemma RunPush<C>(records: seq<Received<C>>, r: Received<C>)
    ensures Run(records + [r]) == Record(Run(records), r).0
  {
    assert (records + [r])[..|records|] == records;
  }

  /** The latest row and the row of an identity once x is appended. */
  lemma Pushed<C>(log: seq<Fact<C>>, x: Fact<C>, id: nat)
    ensures Latest(log + [x]) == if Latest(log).None? || Later(Latest(log).value, x) then Some(x) else Latest(log)
    ensures Stored(log + [x], id) == if x.id == id then Some(x) else Stored(log, id)
  {
    assert (log + [x])[..|log|] == log;
  }

  // ---------------------------------------------------------------- the repository

  class ChangeLogRepository<C(==)> {
    var log: seq<Fact<C>>

    constructor ()
      ensures log == []
    {
      log := [];
    }

    method RecordIfChanged(r: Received<C>) returns (result: Result<Option<Fact<C>>, LogError>)
      modifies this
      ensures (log, result) == Record(old(log), r)
    {
      if r.content.None? {
        return Success(None);
      }
      var previous := Latest(log);
      if previous.Some? && previous.value.content == r.content.value {
        return Success(None);
      }
      var existing := Stored(log, r.id);
      if existing.None? {
        var fact := Fact(r.id, r.receivedAt, r.content.value);
        log := log + [fact];
        return Success(Some(fact));
      }
      if existing.value.content != r.content.value {
        return Failure(IdentityConflict);
      }
      return Success(existing);
    }
  }
}
