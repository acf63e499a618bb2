/** The change-only log for records in any receipt order, ties included: exactly when each record
    keeps the stored log answering like the full log. */
module ChangeLogAnyOrder {
  import opened Wrappers
  import opened ChangeLog

  // ---------------------------------------------------------------- what an appended fact answers

  /** f comes strictly after g in the query order. */
  predicate After<C(==)>(f: Fact<C>, g: Fact<C>) { !Later(f, g) }

  /** The appended fact x would be the answer at t. */
  predicate Shows<C(==)>(log: seq<Fact<C>>, x: Fact<C>, t: int) {
    x.receivedAt <= t && forall i :: 0 <= i < |log| && After(log[i], x) ==> t < log[i].receivedAt
  }

  lemma AsOfPush<C>(log: seq<Fact<C>>, x: Fact<C>, t: int)
    ensures AsOf(log + [x], t)
         == if x.receivedAt <= t && (AsOf(log, t).None? || Later(AsOf(log, t).value, x)) then Some(x) else AsOf(log, t)
  {
    assert (log + [x])[..|log|] == log;
  }

  lemma AppendShows<C>(log: seq<Fact<C>>, x: Fact<C>, t: int)
    ensures AsOf(log + [x], t) == if Shows(log, x, t) then Some(x) else AsOf(log, t)
  {
    AsOfPush(log, x, t);
    AsOfIsLatestVisible(log, t);
  }

  /** Without a fact in between, two moments have the same answer. */
  lemma {:induction false} QuietSpan<C>(log: seq<Fact<C>>, from: int, t: int)
    requires from <= t && forall i :: 0 <= i < |log| ==> log[i].receivedAt <= from || t < log[i].receivedAt
    ensures AsOf(log, t) == AsOf(log, from)
  {
    if log != [] {
      QuietSpan(log[..|log| - 1], from, t);
    }
  }

  lemma ShownSpanIsQuiet<C>(log: seq<Fact<C>>, x: Fact<C>, t: int)
    requires Shows(log, x, t)
    ensures AsOf(log, t) == AsOf(log, x.receivedAt)
  {
    forall i | 0 <= i < |log|
      ensures log[i].receivedAt <= x.receivedAt || t < log[i].receivedAt
    {
      assert x.receivedAt < log[i].receivedAt ==> After(log[i], x);
    }
    QuietSpan(log, x.receivedAt, t);
  }

  // ---------------------------------------------------------------- the condition

  predicate WillStore<C(==)>(log: seq<Fact<C>>, r: Received<C>) {
    Changes(log, r) && Stored(log, r.id).None?
  }

  /** The log has a fact after x that is visible no later than f. */
  predicate OvertakenBy<C(==)>(log: seq<Fact<C>>, x: Fact<C>, f: Fact<C>) {
    exists j :: 0 <= j < |log| && After(log[j], x) && log[j].receivedAt <= f.receivedAt
  }

  /** Wherever a received fact takes over from x, a stored fact has taken over by then. */
  predicate Overtaken<C(==)>(log: seq<Fact<C>>, full: seq<Fact<C>>, x: Fact<C>) {
    forall i :: 0 <= i < |full| && After(full[i], x) ==> OvertakenBy(log, x, full[i])
  }

  /** The record may be applied: it has no content, or the log already answers it at its receipt
      time, or it is stored and overtaken in time, or it is dropped and never is an answer. */
  predicate MayApply<C(==)>(log: seq<Fact<C>>, full: seq<Fact<C>>, r: Received<C>) {
    || r.content.None?
    || Answer(AsOf(log, r.receivedAt)) == r.content
    || (var x := Fact(r.id, r.receivedAt, r.content.value);
        if WillStore(log, r) then Overtaken(log, full, x) else !Shows(full, x, x.receivedAt))
  }

  // ---------------------------------------------------------------- one record

  predicate Within<C(==)>(log: seq<Fact<C>>, full: seq<Fact<C>>) {
    forall i :: 0 <= i < |log| ==> log[i] in full
  }

  lemma {:induction false} RunIsWithinFull<C>(records: seq<Received<C>>)
    ensures Within(Run(records), FullLog(records))
  {
    if records != [] {
      RunIsWithinFull(records[..|records| - 1]);
    }
  }

  lemma ShowsWithin<C>(log: seq<Fact<C>>, full: seq<Fact<C>>, x: Fact<C>, t: int)
    requires Within(log, full) && Shows(full, x, t)
    ensures Shows(log, x, t)
  {
    forall i | 0 <= i < |log| && After(log[i], x)
      ensures t < log[i].receivedAt
    {
      var j :| 0 <= j < |full| && full[j] == log[i];
    }
  }

  predicate SameAnswer<C(==)>(log: seq<Fact<C>>, full: seq<Fact<C>>, t: int) {
    Answer(AsOf(log, t)) == Answer(AsOf(full, t))
  }

  ghost predicate SameAnswers<C>(log: seq<Fact<C>>, full: seq<Fact<C>>) {
    forall t :: SameAnswer(log, full, t)
  }

  /** Storing a record keeps the answers equal exactly when it may be stored. */
  lemma StoredKeepsAnswers<C>(log: seq<Fact<C>>, full: seq<Fact<C>>, x: Fact<C>)
    requires Within(log, full) && SameAnswers(log, full)
    ensures SameAnswers(log + [x], full + [x])
            <==> Answer(AsOf(log, x.receivedAt)) == Some(x.content) || Overtaken(log, full, x)
  {
    if Answer(AsOf(log, x.receivedAt)) == Some(x.content) || Overtaken(log, full, x) {
      forall t
        ensures SameAnswer(log + [x], full + [x], t)
      {
        StoredAnswerIsRight(log, full, x, t);
      }
    } else {
      var i :| 0 <= i < |full| && After(full[i], x) && !OvertakenBy(log, x, full[i]);
      StoredAnswerIsWrong(log, full, x, full[i]);
    }
  }

  lemma StoredAnswerIsRight<C>(log: seq<Fact<C>>, full: seq<Fact<C>>, x: Fact<C>, t: int)
    requires Within(log, full) && SameAnswer(log, full, t)
    requires Answer(AsOf(log, x.receivedAt)) == Some(x.content) || Overtaken(log, full, x)
    ensures SameAnswer(log + [x], full + [x], t)
  {
    AppendShows(log, x, t);
    AppendShows(full, x, t);
    if Shows(full, x, t) {
      ShowsWithin(log, full, x, t);
    } else if Shows(log, x, t) {
      ShownSpanIsQuiet(log, x, t);
      var i :| 0 <= i < |full| && After(full[i], x) && full[i].receivedAt <= t;
      assert !OvertakenBy(log, x, full[i]);
    }
  }

  /** When f takes over in the full log and nothing has in the stored one, x still answers there. */
  lemma StoredAnswerIsWrong<C>(log: seq<Fact<C>>, full: seq<Fact<C>>, x: Fact<C>, f: Fact<C>)
    requires SameAnswers(log, full) && f in full && After(f, x) && !OvertakenBy(log, x, f)
    requires Answer(AsOf(log, x.receivedAt)) != Some(x.content)
    ensures !SameAnswer(log + [x], full + [x], f.receivedAt)
  {
    var t := f.receivedAt;
    AppendShows(log, x, t);
    AppendShows(full, x, t);
    assert Shows(log, x, t);
    ShownSpanIsQuiet(log, x, t);
    var i :| 0 <= i < |full| && full[i] == f;
    assert !Shows(full, x, t);
    assert SameAnswer(log, full, t);
  }

  /** Dropping a record keeps the answers equal exactly when it may be dropped. */
  lemma DroppedKeepsAnswers<C>(log: seq<Fact<C>>, full: seq<Fact<C>>, x: Fact<C>)
    requires Within(log, full) && SameAnswers(log, full)
    ensures SameAnswers(log, full + [x])
            <==> Answer(AsOf(log, x.receivedAt)) == Some(x.content) || !Shows(full, x, x.receivedAt)
  {
    if Answer(AsOf(log, x.receivedAt)) == Some(x.content) || !Shows(full, x, x.receivedAt) {
      forall t
        ensures SameAnswer(log, full + [x], t)
      {
        DroppedAnswerIsRight(log, full, x, t);
      }
    } else {
      AppendShows(full, x, x.receivedAt);
      assert !SameAnswer(log, full + [x], x.receivedAt);
    }
  }

  lemma DroppedAnswerIsRight<C>(log: seq<Fact<C>>, full: seq<Fact<C>>, x: Fact<C>, t: int)
    requires Within(log, full) && SameAnswer(log, full, t)
    requires Answer(AsOf(log, x.receivedAt)) == Some(x.content) || !Shows(full, x, x.receivedAt)
    ensures SameAnswer(log, full + [x], t)
  {
    AppendShows(full, x, t);
    if Shows(full, x, t) {
      ShowsWithin(log, full, x, t);
      ShownSpanIsQuiet(log, x, t);
    }
  }

  // ---------------------------------------------------------------- whole runs

  /** The records so far may be followed by record n. */
  predicate MayApplyNext<C(==)>(records: seq<Received<C>>, n: nat)
    requires n < |records|
  {
    MayApply(Run(records[..n]), FullLog(records[..n]), records[n])
  }

  lemma RefinesMeansSameAnswers<C>(records: seq<Received<C>>)
    ensures Refines(records) <==> SameAnswers(Run(records), FullLog(records))
  {
    if Refines(records) {
      forall t
        ensures SameAnswer(Run(records), FullLog(records), t)
      {
        assert AnswersAgree(records, t);
      }
    } else {
      var t :| !AnswersAgree(records, t);
      assert !SameAnswer(Run(records), FullLog(records), t);
    }
  }

  /** In any order, ties and replays included: a record received while the stored log answers like
      the full log keeps it so if and only if it may be applied. */
  lemma RefinesStepExactly<C>(records: seq<Received<C>>)
    requires records != [] && Refines(records[..|records| - 1])
    ensures Refines(records) <==> MayApplyNext(records, |records| - 1)
  {
    var n := |records| - 1;
    var r := records[n];
    var log, full := Run(records[..n]), FullLog(records[..n]);
    RunIsWithinFull(records[..n]);
    RefinesMeansSameAnswers(records[..n]);
    RefinesMeansSameAnswers(records);
    if r.content.Some? {
      var x := Fact(r.id, r.receivedAt, r.content.value);
      StoredKeepsAnswers(log, full, x);
      DroppedKeepsAnswers(log, full, x);
    }
  }

  /** The stored log answers like the full log after the first n records. */
  ghost predicate RefinesAfter<C>(records: seq<Received<C>>, n: nat)
    requires n <= |records|
  {
    Refines(records[..n])
  }

  lemma StepOfRun<C>(records: seq<Received<C>>, n: nat)
    requires n < |records| && RefinesAfter(records, n)
    ensures RefinesAfter(records, n + 1) <==> MayApplyNext(records, n)
  {
    var prefix := records[..n + 1];
    assert prefix[..n] == records[..n] && prefix[n] == records[n];
    RefinesStepExactly(prefix);
  }

  /** At every moment of a run the stored log answers like the full log if and only if every record
      may be applied when it is received. */
  lemma {:induction false} AlwaysRefinesExactly<C>(records: seq<Received<C>>, n: nat)
    requires n <= |records|
    ensures (forall k :: 0 <= k <= n ==> RefinesAfter(records, k))
        <==> (forall k :: 0 <= k < n ==> MayApplyNext(records, k))
  {
    if n == 0 {
      assert forall t :: AnswersAgree(records[..0], t);
    } else {
      AlwaysRefinesExactly(records, n - 1);
      if RefinesAfter(records, n - 1) {
        StepOfRun(records, n - 1);
      }
    }
  }

  /** In receipt order only a changed record under a stored identity may not be applied. */
  lemma InOrderOnlyReplaysFail<C>(records: seq<Received<C>>)
    requires records != [] && Increasing(records)
    ensures var n := |records| - 1;
      MayApplyNext(records, n)
      <==> !(Changes(Run(records[..n]), records[n]) && Stored(Run(records[..n]), records[n].id).Some?)
  {
    var n := |records| - 1;
    LogsAreBefore(records[..n], records[n].receivedAt);
    AsOfLateIsLatest(Run(records[..n]), records[n].receivedAt);
  }

  /** Such records exist: a late record equal to the newest row is dropped although an older row
      answers for its time. */
  lemma OutOfOrderBreaksRefinement<C>(a: C, b: C)
    requires a != b
    ensures !Refines([Received(0, 10, Some(a)), Received(1, 5, Some(b)), Received(2, 7, Some(a))])
  {
    var records := [Received(0, 10, Some(a)), Received(1, 5, Some(b)), Received(2, 7, Some(a))];
    var first, second, third := Fact(0, 10, a), Fact(1, 5, b), Fact(2, 7, a);
    var one, two := records[..1], records[..2];
    assert one[..0] == [] && two[..1] == one && records[..2] == two;
    assert Run(one) == [first] && FullLog(one) == [first];
    assert [first][..0] == [] && [first, second][..1] == [first] && [first, second, third][..2] == [first, second];
    assert Run(two) == [first, second] && FullLog(two) == [first, second] by {
      assert two[1] == records[1];
      assert Latest([first]) == Some(first) && Stored([first], 1) == None;
    }
    assert Run(records) == [first, second] && FullLog(records) == [first, second, third] by {
      assert Latest([first, second]) == Some(first);
    }
    assert [] + [first] == [first] && [first] + [second] == [first, second];
    assert [first, second] + [third] == [first, second, third];
    AsOfPush([], first, 7);
    AsOfPush([first], second, 7);
    AsOfPush([first, second], third, 7);
    assert !AnswersAgree(records, 7);
  }
}
