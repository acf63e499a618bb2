/** What holds of the leased task queue over every interleaving of workers. */
module CandidateTaskRuns {
  import opened Quantities
  import opened Wrappers
  import opened CandidateTasks
  import opened Collections

  /** One transaction of some worker, with whatever claim that worker holds. */
  datatype Event =
    | Created(id: nat, analysisType: string, maxAttempts: int, at: int)
    | ClaimedBy(at: int, limit: int, duration: int, types: Option<seq<string>>, locked: set<nat>, rows: seq<nat>)
    | Completed(claim: Claim, at: int, result: Outcome)
    | FailedBy(claim: Claim, at: int, retryDelay: int)
    | DeferredBy(claim: Claim, notBefore: int)

  /** The rows are the ones the claim query returns. */
  ghost predicate ReturnsRows(q: Queue, tasksPerMinute: int, e: Event)
    requires e.ClaimedBy?
  {
    IsSelection(q.tasks, Candidates(q.tasks, e.at, e.types, e.locked),
                Available(q.tasks, e.at, e.limit, tasksPerMinute), e.rows)
  }

  /** A transaction that raises is rolled back. */
  function Commit(q: Queue, r: Result<Queue, TaskError>): Queue {
    match r
    case Success(after) => after
    case Failure(_) => q
  }

  ghost function StepOf(q: Queue, tasksPerMinute: int, e: Event): Queue {
    match e
    case Created(id, analysisType, maxAttempts, at) =>
      if 0 < maxAttempts then Create(q, id, NewTask(analysisType, maxAttempts, at)) else q
    case ClaimedBy(at, _, duration, _, _, rows) =>
      if ReturnsRows(q, tasksPerMinute, e) then ClaimRows(q, rows, at, duration) else q
    case Completed(claim, at, result) => Commit(q, Complete(q, claim, at, result))
    case FailedBy(claim, at, retryDelay) => Commit(q, Fail(q, claim, at, retryDelay))
    case DeferredBy(claim, notBefore) => Commit(q, Defer(q, claim, notBefore))
  }

  ghost function Run(q: Queue, tasksPerMinute: int, events: seq<Event>): Queue {
    if events == [] then q
    else StepOf(Run(q, tasksPerMinute, events[..|events| - 1]), tasksPerMinute, events[|events| - 1])
  }

  // ---------------------------------------------------------------- invariant of every row

  /** Claimed iff a lease is held; attempts within bounds; a task that may still run has an
      attempt left; a result exactly when succeeded. */
  predicate TaskOk(t: Task, nextLease: nat) {
    && (t.status == Claimed <==> t.leaseId.Some?)
    && (t.leaseId.Some? <==> t.leaseExpiresAt.Some?)
    && (t.leaseId.Some? ==> t.leaseId.value < nextLease && 1 <= t.attemptCount && t.claimedAt.Some?)
    && 0 <= t.attemptCount <= t.maxAttempts && 0 < t.maxAttempts
    && (t.status in {Pending, Retry, Deferred} ==> t.attemptCount < t.maxAttempts)
    && (t.status == Failed ==> t.attemptCount == t.maxAttempts)
    && (t.status == Succeeded <==> t.result.Some?)
    && (t.completedAt.Some? <==> t.status in {Succeeded, Failed})
  }

  predicate Ok(q: Queue) {
    && (forall id :: id in q.tasks ==> TaskOk(q.tasks[id], q.nextLease))
    && (forall a, b :: a in q.tasks && b in q.tasks && a != b && q.tasks[a].leaseId.Some? ==>
          q.tasks[a].leaseId != q.tasks[b].leaseId)
  }

  /** Rows outside the claim keep their values; lease ids are used up one per row. */
  lemma {:induction false} ClaimRowsFrame(q: Queue, rows: seq<nat>, now: int, duration: int)
    requires forall i :: 0 <= i < |rows| ==> rows[i] in q.tasks
    ensures var after := ClaimRows(q, rows, now, duration);
      && after.nextLease == q.nextLease + |rows|
      && after.tasks.Keys == q.tasks.Keys
      && forall id :: id in q.tasks && id !in rows ==> after.tasks[id] == q.tasks[id]
  {
    if rows != [] {
      ClaimRowsFrame(q, rows[..|rows| - 1], now, duration);
    }
  }

  predicate Distinct(rows: seq<nat>) {
    forall i, j :: 0 <= i < j < |rows| ==> rows[i] != rows[j]
  }

  lemma {:induction false} ClaimRowsAt(q: Queue, rows: seq<nat>, now: int, duration: int, n: nat, i: nat)
    requires i < n <= |rows| && Distinct(rows) && forall k :: 0 <= k < |rows| ==> rows[k] in q.tasks
    ensures var after := ClaimRows(q, rows[..n], now, duration).tasks;
      rows[i] in after && after[rows[i]] == Lease(q.tasks[rows[i]], q.nextLease + i, now, duration)
  {
    if i < n - 1 {
      ClaimRowsAt(q, rows, now, duration, n - 1, i);
    }
    ClaimRowsNext(q, rows, now, duration, n - 1);
  }

  /** One more row: it is leased as it was, and the rows before it are left alone. */
  lemma ClaimRowsNext(q: Queue, rows: seq<nat>, now: int, duration: int, n: nat)
    requires n < |rows| && Distinct(rows) && forall k :: 0 <= k < |rows| ==> rows[k] in q.tasks
    ensures var before, after := ClaimRows(q, rows[..n], now, duration).tasks, ClaimRows(q, rows[..n
        + 1], now, duration).tasks;
      && rows[n] in after && after[rows[n]] == Lease(q.tasks[rows[n]], q.nextLease + n, now, duration)
      && forall i :: 0 <= i < n && rows[i] in before ==> rows[i] in after && after[rows[i]] == before[rows[i]]
  {
    ClaimRowsFrame(q, rows[..n], now, duration);
    ClaimRowsExtend(q, rows, n, now, duration);
    assert rows[n] !in rows[..n];
  }

  /** Leasing the rows one after another: each row once, each with its own lease. */
  lemma ClaimRowsEffect(q: Queue, rows: seq<nat>, now: int, duration: int)
    requires Distinct(rows) && forall i :: 0 <= i < |rows| ==> rows[i] in q.tasks
    ensures var after := ClaimRows(q, rows, now, duration);
      && after.nextLease == q.nextLease + |rows|
      && after.tasks.Keys == q.tasks.Keys
      && (forall i :: 0 <= i < |rows| ==>
            after.tasks[rows[i]] == Lease(q.tasks[rows[i]], q.nextLease + i, now, duration))
      && (forall id :: id in q.tasks && id !in rows ==> after.tasks[id] == q.tasks[id])
  {
    ClaimRowsFrame(q, rows, now, duration);
    forall i | 0 <= i < |rows|
      ensures ClaimRows(q, rows, now, duration).tasks[rows[i]]
          == Lease(q.tasks[rows[i]], q.nextLease + i, now, duration)
    {
      ClaimRowsAt(q, rows, now, duration, |rows|, i);
      assert rows[..|rows|] == rows;
    }
  }

  /** The claimed row's index, if it is one of the rows. */
  lemma SelectedRows(q: Queue, tasksPerMinute: int, e: Event)
    requires e.ClaimedBy? && ReturnsRows(q, tasksPerMinute, e)
    ensures forall i :: 0 <= i < |e.rows| ==> e.rows[i] in q.tasks && Claimable(q.tasks[e.rows[i]], e.at, e.types)
    ensures Distinct(e.rows)
  {
    DistinctRows(q.tasks, e.rows);
  }

  lemma ClaimKeepsOk(q: Queue, tasksPerMinute: int, e: Event)
    requires Ok(q) && e.ClaimedBy? && ReturnsRows(q, tasksPerMinute, e)
    ensures Ok(StepOf(q, tasksPerMinute, e))
  {
    SelectedRows(q, tasksPerMinute, e);
    ClaimRowsEffect(q, e.rows, e.at, e.duration);
    var after := ClaimRows(q, e.rows, e.at, e.duration);
    forall id | id in after.tasks
      ensures TaskOk(after.tasks[id], after.nextLease)
      ensures id !in e.rows ==> after.tasks[id] == q.tasks[id]
    {
      if id in e.rows {
        var i :| 0 <= i < |e.rows| && e.rows[i] == id;
        assert TaskOk(q.tasks[id], q.nextLease);
      }
    }
    forall a, b | a in after.tasks && b in after.tasks && a != b && after.tasks[a].leaseId.Some?
      ensures after.tasks[a].leaseId != after.tasks[b].leaseId
    {
      LeasesDiffer(q, e, a, b);
    }
  }

  lemma LeasesDiffer(q: Queue, e: Event, a: nat, b: nat)
    requires Ok(q) && e.ClaimedBy?
    requires forall i :: 0 <= i < |e.rows| ==> e.rows[i] in q.tasks
    requires Distinct(e.rows)
    requires a in q.tasks && b in q.tasks && a != b
    ensures var after := ClaimRows(q, e.rows, e.at, e.duration).tasks;
      a in after && b in after && (after[a].leaseId.Some? ==> after[a].leaseId != after[b].leaseId)
  {
    var i := LeaseAfterClaim(q, e.rows, e.at, e.duration, a);
    var j := LeaseAfterClaim(q, e.rows, e.at, e.duration, b);
    assert TaskOk(q.tasks[a], q.nextLease) && TaskOk(q.tasks[b], q.nextLease);
  }

  /** The lease of a task after a claim: that of its place among the rows, or the one it had. */
  lemma LeaseAfterClaim(q: Queue, rows: seq<nat>, now: int, duration: int, id: nat) returns (place: Option<nat>)
    requires Distinct(rows) && (forall i :: 0 <= i < |rows| ==> rows[i] in q.tasks) && id in q.tasks
    ensures place.Some? ==> place.value < |rows| && rows[place.value] == id
    ensures var after := ClaimRows(q, rows, now, duration).tasks;
      && id in after
      && after[id].leaseId == if place.Some? then Some(q.nextLease + place.value) else q.tasks[id].leaseId
  {
    place := None;
    if i :| 0 <= i < |rows| && rows[i] == id {
      place := Some(i);
    }
    ClaimRowsEffect(q, rows, now, duration);
  }

  lemma UnleasedRowKeepsOk(q: Queue, id: nat, t: Task)
    requires Ok(q) && TaskOk(t, q.nextLease) && t.leaseId.None?
    ensures Ok(q.(tasks := q.tasks[id := t]))
  {
  }

  lemma StepKeepsOk(q: Queue, tasksPerMinute: int, e: Event)
    requires Ok(q)
    ensures Ok(StepOf(q, tasksPerMinute, e))
  {
    var after := StepOf(q, tasksPerMinute, e);
    if e.ClaimedBy? {
      if ReturnsRows(q, tasksPerMinute, e) {
        ClaimKeepsOk(q, tasksPerMinute, e);
      }
    } else if after != q {
      var id := if e.Created? then e.id else e.claim.id;
      assert id in q.tasks ==> TaskOk(q.tasks[id], q.nextLease);
      UnleasedRowKeepsOk(q, id, after.tasks[id]);
    }
  }

  lemma {:induction false} RunKeepsOk(q: Queue, tasksPerMinute: int, events: seq<Event>)
    requires Ok(q)
    ensures Ok(Run(q, tasksPerMinute, events))
  {
    if events != [] {
      RunKeepsOk(q, tasksPerMinute, events[..|events| - 1]);
      StepKeepsOk(Run(q, tasksPerMinute, events[..|events| - 1]), tasksPerMinute, events[|events| - 1]);
    }
  }

  // ---------------------------------------------------------------- lease fencing

  /** The lease was handed out, and its row no longer holds it. */
  predicate Fenced(q: Queue, claim: Claim) {
    && claim.leaseId < q.nextLease
    && claim.id in q.tasks && q.tasks[claim.id].leaseId != Some(claim.leaseId)
  }

  lemma StepKeepsFence(q: Queue, tasksPerMinute: int, e: Event, claim: Claim)
    requires Fenced(q, claim)
    ensures Fenced(StepOf(q, tasksPerMinute, e), claim)
    ensures q.nextLease <= StepOf(q, tasksPerMinute, e).nextLease
  {
    if e.ClaimedBy? && ReturnsRows(q, tasksPerMinute, e) {
      SelectedRows(q, tasksPerMinute, e);
      ClaimRowsEffect(q, e.rows, e.at, e.duration);
      if claim.id in e.rows {
        var i :| 0 <= i < |e.rows| && e.rows[i] == claim.id;
      }
    }
  }

  /** Once a claim is superseded or released it stays powerless in every later state: it cannot
      fail or defer its row, and completing either raises or repeats the stored result. */
  lemma {:induction false} FencedClaimIsPowerless(q: Queue, tasksPerMinute: int, events: seq<Event>, claim: Claim,
                                                 at: int, result: Outcome, delay: int)
    requires Fenced(q, claim)
    ensures var later := Run(q, tasksPerMinute, events);
      && Fenced(later, claim)
      && Fail(later, claim, at, delay) == Failure(LostLease)
      && Defer(later, claim, at) == Failure(LostLease)
      && Commit(later, Complete(later, claim, at, result)) == later
  {
    if events != [] {
      FencedClaimIsPowerless(q, tasksPerMinute, events[..|events| - 1], claim, at, result, delay);
      StepKeepsFence(Run(q, tasksPerMinute, events[..|events| - 1]), tasksPerMinute, events[|events| - 1], claim);
    }
  }

  /** A claim fences every claim of the same task that was handed out before it. */
  lemma ClaimFencesEarlierClaims(q: Queue, tasksPerMinute: int, e: Event, earlier: Claim)
    requires e.ClaimedBy? && ReturnsRows(q, tasksPerMinute, e)
    requires earlier.id in e.rows && earlier.leaseId < q.nextLease
    ensures Fenced(StepOf(q, tasksPerMinute, e), earlier)
  {
    SelectedRows(q, tasksPerMinute, e);
    ClaimRowsEffect(q, e.rows, e.at, e.duration);
    var i :| 0 <= i < |e.rows| && e.rows[i] == earlier.id;
  }

  /** A successful completion, failure or deferral fences the claim that made it. */
  lemma UseFencesTheClaim(q: Queue, claim: Claim, at: int, result: Outcome, delay: int)
    requires Ok(q) && Owns(q.tasks, claim)
    ensures Fenced(Commit(q, Complete(q, claim, at, result)), claim)
    ensures Fenced(Commit(q, Fail(q, claim, at, delay)), claim)
    ensures Fenced(Commit(q, Defer(q, claim, at)), claim)
  {
    assert TaskOk(q.tasks[claim.id], q.nextLease);
  }

  // ---------------------------------------------------------------- absorbing states

  lemma StepKeepsTerminal(q: Queue, tasksPerMinute: int, e: Event, id: nat)
    requires Ok(q) && id in q.tasks && q.tasks[id].status in {Succeeded, Failed}
    ensures id in StepOf(q, tasksPerMinute, e).tasks && StepOf(q, tasksPerMinute, e).tasks[id] == q.tasks[id]
  {
    assert TaskOk(q.tasks[id], q.nextLease);
    if e.ClaimedBy? && ReturnsRows(q, tasksPerMinute, e) {
      SelectedRows(q, tasksPerMinute, e);
      ClaimRowsEffect(q, e.rows, e.at, e.duration);
      assert id !in e.rows;
    }
  }

  /** Succeeded and failed tasks never change again, results included. */
  lemma {:induction false} TerminalIsForEver(q: Queue, tasksPerMinute: int, events: seq<Event>, id: nat)
    requires Ok(q) && id in q.tasks && q.tasks[id].status in {Succeeded, Failed}
    ensures var later := Run(q, tasksPerMinute, events).tasks;
      id in later && later[id] == q.tasks[id]
  {
    if events != [] {
      var before := events[..|events| - 1];
      TerminalIsForEver(q, tasksPerMinute, before, id);
      RunKeepsOk(q, tasksPerMinute, before);
      StepKeepsTerminal(Run(q, tasksPerMinute, before), tasksPerMinute, events[|events| - 1], id);
    }
  }

  /** A claim that used the last attempt is not taken over when its lease expires. */
  lemma LastAttemptIsNotReclaimed(q: Queue, tasksPerMinute: int, e: Event, id: nat)
    requires id in q.tasks && q.tasks[id].attemptCount == q.tasks[id].maxAttempts
    requires e.ClaimedBy? && ReturnsRows(q, tasksPerMinute, e)
    ensures id !in e.rows
  {
    SelectedRows(q, tasksPerMinute, e);
  }

  /** The event is the report of the worker that holds this lease. */
  predicate Uses(e: Event, id: nat, lease: nat) {
    (e.Completed? || e.FailedBy? || e.DeferredBy?) && e.claim.id == id && e.claim.leaseId == lease
  }

  /** The row is leased for its last attempt. */
  predicate OnLastAttempt(q: Queue, id: nat, lease: nat) {
    && id in q.tasks && q.tasks[id].status == Claimed && q.tasks[id].leaseId == Some(lease)
    && q.tasks[id].attemptCount == q.tasks[id].maxAttempts
  }

  lemma StepLeavesLastAttempt(q: Queue, tasksPerMinute: int, e: Event, id: nat, lease: nat)
    requires OnLastAttempt(q, id, lease) && !Uses(e, id, lease)
    ensures id in StepOf(q, tasksPerMinute, e).tasks && StepOf(q, tasksPerMinute, e).tasks[id] == q.tasks[id]
  {
    if e.ClaimedBy? && ReturnsRows(q, tasksPerMinute, e) {
      LastAttemptIsNotReclaimed(q, tasksPerMinute, e, id);
      SelectedRows(q, tasksPerMinute, e);
      ClaimRowsEffect(q, e.rows, e.at, e.duration);
    }
  }

  /** Unless its own worker reports, a row on its last attempt stays as it is over every run,
      however long its lease has been over. */
  lemma {:induction false} LastAttemptIsStuck(q: Queue, tasksPerMinute: int, events: seq<Event>, id: nat, lease: nat)
    requires OnLastAttempt(q, id, lease)
    requires forall i :: 0 <= i < |events| ==> !Uses(events[i], id, lease)
    ensures OnLastAttempt(Run(q, tasksPerMinute, events), id, lease)
    ensures Run(q, tasksPerMinute, events).tasks[id] == q.tasks[id]
  {
    if events != [] {
      var n := |events| - 1;
      LastAttemptIsStuck(q, tasksPerMinute, events[..n], id, lease);
      StepLeavesLastAttempt(Run(q, tasksPerMinute, events[..n]), tasksPerMinute, events[n], id, lease);
    }
  }

  /** An unlocked row whose lease is over is taken over, by a claim with room for all candidates, if
      and only if it has an attempt left. */
  lemma ExpiredClaimIsReclaimedExactly(q: Queue, tasksPerMinute: int, e: Event, id: nat)
    requires e.ClaimedBy? && ReturnsRows(q, tasksPerMinute, e)
    requires |Candidates(q.tasks, e.at, e.types, e.locked)| <= Available(q.tasks, e.at, e.limit, tasksPerMinute)
    requires id in q.tasks && id !in e.locked && q.tasks[id].status == Claimed && q.tasks[id].notBefore <= e.at
    requires q.tasks[id].leaseExpiresAt.Some? && q.tasks[id].leaseExpiresAt.value <= e.at
    requires e.types.Some? ==> q.tasks[id].analysisType in e.types.value
    ensures id in e.rows <==> q.tasks[id].attemptCount < q.tasks[id].maxAttempts
  {
    SelectedRows(q, tasksPerMinute, e);
    var candidates := Candidates(q.tasks, e.at, e.types, e.locked);
    if id in candidates && id !in e.rows {
      OmittedMeansFull(e.rows, candidates, id);
    }
  }

  /** Distinct rows that omit a candidate are fewer than the candidates. */
  lemma OmittedMeansFull(rows: seq<nat>, candidates: set<nat>, id: nat)
    requires Distinct(rows) && (forall i :: 0 <= i < |rows| ==> rows[i] in candidates)
    requires id in candidates && id !in rows
    ensures |rows| < |candidates|
  {
    DistinctMembers(rows);
    FewerMembers(Members(rows) + {id}, candidates);
  }

  lemma {:induction false} DistinctMembers(rows: seq<nat>)
    requires Distinct(rows)
    ensures |Members(rows)| == |rows|
  {
    if rows != [] {
      DistinctMembers(rows[1..]);
    }
  }

  /** Such rows exist: a row with one attempt, created and claimed. */
  lemma LastAttemptIsReachable(tasksPerMinute: int, analysisType: string, at: int, duration: int)
    requires 0 < tasksPerMinute
    ensures var events := [Created(0, analysisType, 1, at), ClaimedBy(at, 1, duration, None, {}, [0])];
      var q := Run(Queue(map[], 0), tasksPerMinute, events);
      OnLastAttempt(q, 0, 0) && q.tasks[0].leaseExpiresAt == Some(at + duration)
  {
    var created, claim := Created(0, analysisType, 1, at), ClaimedBy(at, 1, duration, None, {}, [0]);
    var task := NewTask(analysisType, 1, at);
    var q := Queue(map[0 := task], 0);
    assert [created, claim][..1] == [created] && [created][..0] == [];
    assert Run(Queue(map[], 0), tasksPerMinute, [created]) == q by {
      assert Run(Queue(map[], 0), tasksPerMinute, []) == Queue(map[], 0);
    }
    OnlyRowIsSelected(q, tasksPerMinute, claim);
    assert ClaimRows(q, [0], at, duration) == Queue(map[0 := Lease(task, 0, at, duration)], 1) by {
      assert [0][..0] == [] && ClaimRows(q, [], at, duration) == q;
    }
    assert Run(Queue(map[], 0), tasksPerMinute, [created, claim]) == StepOf(q, tasksPerMinute, claim);
  }

  lemma OnlyRowIsSelected(q: Queue, tasksPerMinute: int, e: Event)
    requires 0 < tasksPerMinute && e.ClaimedBy? && e.limit == 1 && e.rows == [0] && e.locked == {} && e.types.None?
    requires q.tasks.Keys == {0} && Claimable(q.tasks[0], e.at, None) && q.tasks[0].claimedAt.None?
    ensures ReturnsRows(q, tasksPerMinute, e)
  {
    assert ClaimedSince(q.tasks, MinuteStart(e.at)) == {};
    assert Candidates(q.tasks, e.at, e.types, e.locked) == {0};
  }

  // ---------------------------------------------------------------- attempt accounting

  ghost predicate Claims(q: Queue, tasksPerMinute: int, e: Event, id: nat) {
    e.ClaimedBy? && ReturnsRows(q, tasksPerMinute, e) && id in e.rows
  }

  predicate Defers(q: Queue, e: Event, id: nat) {
    e.DeferredBy? && e.claim.id == id && Owns(q.tasks, e.claim)
  }

  /** Claims minus effective deferrals of one row over the run. */
  ghost function Charged(q: Queue, tasksPerMinute: int, events: seq<Event>, id: nat): int {
    if events == [] then 0
    else
      var n := |events| - 1;
      var before := Run(q, tasksPerMinute, events[..n]);
      Charged(q, tasksPerMinute, events[..n], id)
      + (if Claims(before, tasksPerMinute, events[n], id) then 1 else 0)
      - (if Defers(before, events[n], id) then 1 else 0)
  }

  lemma StepCharges(q: Queue, tasksPerMinute: int, e: Event, id: nat)
    requires Ok(q) && id in q.tasks
    ensures id in StepOf(q, tasksPerMinute, e).tasks
    ensures StepOf(q, tasksPerMinute, e).tasks[id].attemptCount
         == q.tasks[id].attemptCount
          + (if Claims(q, tasksPerMinute, e, id) then 1 else 0)
          - (if Defers(q, e, id) then 1 else 0)
  {
    assert TaskOk(q.tasks[id], q.nextLease);
    if e.ClaimedBy? && ReturnsRows(q, tasksPerMinute, e) {
      SelectedRows(q, tasksPerMinute, e);
      ClaimRowsEffect(q, e.rows, e.at, e.duration);
      if id in e.rows {
        var i :| 0 <= i < |e.rows| && e.rows[i] == id;
      }
    }
  }

  /** An attempt is charged by every claim and given back by every deferral, and by nothing else. */
  lemma {:induction false} AttemptsAreConserved(q: Queue, tasksPerMinute: int, events: seq<Event>, id: nat)
    requires Ok(q) && id in q.tasks
    ensures var later := Run(q, tasksPerMinute, events).tasks;
      id in later && later[id].attemptCount == q.tasks[id].attemptCount + Charged(q, tasksPerMinute, events, id)
  {
    if events != [] {
      var before := events[..|events| - 1];
      AttemptsAreConserved(q, tasksPerMinute, before, id);
      RunKeepsOk(q, tasksPerMinute, before);
      StepCharges(Run(q, tasksPerMinute, before), tasksPerMinute, events[|events| - 1], id);
    }
  }

  // ---------------------------------------------------------------- the minute budget

  predicate WithinMinute(q: Queue, tasksPerMinute: int, now: int) {
    |ClaimedSince(q.tasks, MinuteStart(now))| <= tasksPerMinute
  }

  lemma MinuteStartMonotone(a: int, b: int)
    requires a <= b
    ensures MinuteStart(a) <= MinuteStart(b) <= b
  {
    assert MinuteStart(a) == (a / MINUTE) * MINUTE;
    assert MinuteStart(b) == (b / MINUTE) * MINUTE;
  }

  lemma WithinLaterMinute(q: Queue, tasksPerMinute: int, now: int, later: int)
    requires WithinMinute(q, tasksPerMinute, now) && now <= later
    ensures WithinMinute(q, tasksPerMinute, later)
  {
    MinuteStartMonotone(now, later);
    FewerMembers(ClaimedSince(q.tasks, MinuteStart(later)), ClaimedSince(q.tasks, MinuteStart(now)));
  }

  function Members(rows: seq<nat>): (m: set<nat>)
    ensures |m| <= |rows|
    ensures forall id :: id in m <==> id in rows
  {
    if rows == [] then {}
    else
      var rest := Members(rows[1..]);
      assert |{rows[0]} + rest| <= 1 + |rest|;
      {rows[0]} + rest
  }

  lemma ClaimedSinceGrowsByRows(q: Queue, rows: seq<nat>, now: int, duration: int, since: int)
    requires Distinct(rows) && forall i :: 0 <= i < |rows| ==> rows[i] in q.tasks
    ensures ClaimedSince(ClaimRows(q, rows, now, duration).tasks, since) <= ClaimedSince(q.tasks, since) + Members(rows)
  {
    ClaimRowsFrame(q, rows, now, duration);
  }

  /** A claim stays within the budget, even when it takes over tasks already claimed this minute. */
  lemma ClaimKeepsMinute(q: Queue, tasksPerMinute: int, e: Event)
    requires e.ClaimedBy? && ReturnsRows(q, tasksPerMinute, e)
    requires WithinMinute(q, tasksPerMinute, e.at)
    ensures WithinMinute(StepOf(q, tasksPerMinute, e), tasksPerMinute, e.at)
  {
    SelectedRows(q, tasksPerMinute, e);
    var since := MinuteStart(e.at);
    var before, taken := ClaimedSince(q.tasks, since), Members(e.rows);
    ClaimedSinceGrowsByRows(q, e.rows, e.at, e.duration, since);
    FewerMembers(ClaimedSince(StepOf(q, tasksPerMinute, e).tasks, since), before + taken);
    assert |before + taken| <= |before| + |taken|;
  }

  lemma StepKeepsMinute(q: Queue, tasksPerMinute: int, e: Event, now: int)
    requires WithinMinute(q, tasksPerMinute, now)
    requires !e.ClaimedBy? || !ReturnsRows(q, tasksPerMinute, e)
    ensures WithinMinute(StepOf(q, tasksPerMinute, e), tasksPerMinute, now)
  {
    var after := StepOf(q, tasksPerMinute, e);
    FewerMembers(ClaimedSince(after.tasks, MinuteStart(now)), ClaimedSince(q.tasks, MinuteStart(now)));
  }

  /** The time of the last claim of the run. */
  function LastClaim(start: int, events: seq<Event>): int {
    if events == [] then start
    else if events[|events| - 1].ClaimedBy? then events[|events| - 1].at
    else LastClaim(start, events[..|events| - 1])
  }

  predicate ClaimsInOrder(start: int, events: seq<Event>) {
    forall i :: 0 <= i < |events| && events[i].ClaimedBy? ==> LastClaim(start, events[..i]) <= events[i].at
  }

  /** When claim times do not go back, at every later moment the tasks last claimed in the
      current minute are within the budget. */
  lemma {:induction false} RunKeepsMinute(q: Queue, tasksPerMinute: int, start: int, events: seq<Event>, now: int)
    requires WithinMinute(q, tasksPerMinute, start) && ClaimsInOrder(start, events)
    requires LastClaim(start, events) <= now
    ensures WithinMinute(Run(q, tasksPerMinute, events), tasksPerMinute, now)
  {
    if events == [] {
      WithinLaterMinute(q, tasksPerMinute, start, now);
    } else {
      var n := |events| - 1;
      var e := events[n];
      forall i | 0 <= i < n && events[i].ClaimedBy?
        ensures LastClaim(start, events[..n][..i]) <= events[..n][i].at
      {
        assert events[..n][..i] == events[..i];
      }
      var before := Run(q, tasksPerMinute, events[..n]);
      if e.ClaimedBy? && ReturnsRows(before, tasksPerMinute, e) {
        RunKeepsMinute(q, tasksPerMinute, start, events[..n], e.at);
        ClaimKeepsMinute(before, tasksPerMinute, e);
        WithinLaterMinute(StepOf(before, tasksPerMinute, e), tasksPerMinute, e.at, now);
      } else {
        RunKeepsMinute(q, tasksPerMinute, start, events[..n], now);
        StepKeepsMinute(before, tasksPerMinute, e, now);
      }
    }
  }
}
