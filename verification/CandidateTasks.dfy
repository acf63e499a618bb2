/** The leased enrichment task queue. A lease id is a fresh number; one transaction is one atomic
    step; rows locked by concurrent transactions are skipped by the claim. */
module CandidateTasks {
  import opened Quantities
  import opened Wrappers

  datatype Status = Pending | Claimed | Succeeded | Retry | Failed | Deferred

  datatype Outcome = Outcome(outcome: string, resultIdentity: Option<string>, resultSha256: Option<nat>)

  datatype Task = Task(
    analysisType: string,
    createdAt: int,
    notBefore: int,
    status: Status,
    leaseId: Option<nat>,
    leaseExpiresAt: Option<int>,
    claimedAt: Option<int>,
    attemptCount: int,
    maxAttempts: int,
    completedAt: Option<int>,
    result: Option<Outcome>)

  datatype Claim = Claim(id: nat, leaseId: nat, attemptNumber: int)

  type Tasks = map<nat, Task>

  /** The table and the next unused lease id. */
  datatype Queue = Queue(tasks: Tasks, nextLease: nat)

  datatype TaskError = LostLease | ResultConflict

  function MinuteStart(now: int): int { now - now % MINUTE }

  // ---------------------------------------------------------------- selection

  predicate Claimable(t: Task, now: int, types: Option<seq<string>>) {
    && t.notBefore <= now
    && t.attemptCount < t.maxAttempts
    && (|| t.status in {Pending, Retry, Deferred}
        || (t.status == Claimed && t.leaseExpiresAt.Some? && t.leaseExpiresAt.value <= now))
    && (types.Some? ==> t.analysisType in types.value)
  }

  function Candidates(tasks: Tasks, now: int, types: Option<seq<string>>, locked: set<nat>): set<nat> {
    set id | id in tasks && id !in locked && Claimable(tasks[id], now, types)
  }

  /** ORDER BY not_before, created_at, id. */
  predicate Precedes(tasks: Tasks, a: nat, b: nat)
    requires a in tasks && b in tasks
  {
    || tasks[a].notBefore < tasks[b].notBefore
    || (tasks[a].notBefore == tasks[b].notBefore && tasks[a].createdAt < tasks[b].createdAt)
    || (tasks[a].notBefore == tasks[b].notBefore && tasks[a].createdAt == tasks[b].createdAt && a < b)
  }

  /** The rows are the first `limit` candidates in order. */
  ghost predicate IsSelection(tasks: Tasks, candidates: set<nat>, limit: nat, rows: seq<nat>)
    requires candidates <= tasks.Keys
  {
    && (forall i :: 0 <= i < |rows| ==> rows[i] in candidates)
    && (forall i, j :: 0 <= i < j < |rows| ==> Precedes(tasks, rows[i], rows[j]))
    && |rows| <= limit
    && (forall id :: id in candidates && id !in rows ==>
          |rows| == limit && forall i :: 0 <= i < |rows| ==> Precedes(tasks, rows[i], id))
  }

  function ClaimedSince(tasks: Tasks, t: int): set<nat> {
    set id | id in tasks && tasks[id].claimedAt.Some? && t <= tasks[id].claimedAt.value
  }

  function Available(tasks: Tasks, now: int, limit: int, tasksPerMinute: int): nat {
    Max(0, Min(limit, tasksPerMinute - |ClaimedSince(tasks, MinuteStart(now))|))
  }

  // ---------------------------------------------------------------- the operations, as functions

  function NewTask(analysisType: string, maxAttempts: int, now: int): Task {
    Task(analysisType, now, now, Pending, None, None, None, 0, maxAttempts, None, None)
  }

  function Create(q: Queue, id: nat, task: Task): Queue {
    if id in q.tasks then q else q.(tasks := q.tasks[id := task])
  }

  function Lease(t: Task, lease: nat, now: int, duration: int): Task {
    t.(status := Claimed, leaseId := Some(lease), leaseExpiresAt := Some(now + duration),
       claimedAt := Some(now), attemptCount := t.attemptCount + 1)
  }

  /** Leases the rows one after another, each with a fresh lease id. */
  function ClaimRows(q: Queue, rows: seq<nat>, now: int, duration: int): Queue {
    if rows == [] then q
    else
      var before := ClaimRows(q, rows[..|rows| - 1], now, duration);
      var id := rows[|rows| - 1];
      if id in before.tasks
      then Queue(before.tasks[id := Lease(before.tasks[id], before.nextLease, now, duration)], before.nextLease + 1)
      else before
  }

  predicate Owns(tasks: Tasks, claim: Claim) {
    claim.id in tasks && tasks[claim.id].leaseId == Some(claim.leaseId)
  }

  /** The claim is the one its task was leased with. */
  predicate Issued(tasks: Tasks, claim: Claim) {
    Owns(tasks, claim) && claim.attemptNumber == tasks[claim.id].attemptCount
  }

  function Release(t: Task): Task { t.(leaseId := None, leaseExpiresAt := None) }

  function Complete(q: Queue, claim: Claim, at: int, result: Outcome): Result<Queue, TaskError> {
    if claim.id in q.tasks && q.tasks[claim.id].status == Succeeded then
      if q.tasks[claim.id].result == Some(result) then Success(q) else Failure(ResultConflict)
    else if !Owns(q.tasks, claim) then Failure(LostLease)
    else
      var t := q.tasks[claim.id];
      Success(q.(tasks := q.tasks[claim.id :=
        Release(t).(status := Succeeded, completedAt := Some(at), result := Some(result))]))
  }

  function Fail(q: Queue, claim: Claim, at: int, retryDelay: int): Result<Queue, TaskError> {
    if !Owns(q.tasks, claim) then Failure(LostLease)
    else
      var t := q.tasks[claim.id];
      var terminal := t.attemptCount >= t.maxAttempts;
      Success(q.(tasks := q.tasks[claim.id :=
        Release(t).(status := if terminal then Failed else Retry,
                    notBefore := if terminal then at else at + retryDelay,
                    completedAt := if terminal then Some(at) else None)]))
  }

  function Defer(q: Queue, claim: Claim, notBefore: int): Result<Queue, TaskError> {
    if !Owns(q.tasks, claim) then Failure(LostLease)
    else
      var t := q.tasks[claim.id];
      Success(q.(tasks := q.tasks[claim.id :=
        Release(t).(status := Deferred, notBefore := notBefore,
                    attemptCount := if t.attemptCount < 1 then 0 else t.attemptCount - 1)]))
  }

  // ---------------------------------------------------------------- the repository

  class TaskRepository {
    var tasks: Tasks
    var nextLease: nat

    constructor ()
      ensures Contents() == Queue(map[], 0)
    {
      tasks, nextLease := map[], 0;
    }

    function Contents(): Queue
      reads this
    {
      Queue(tasks, nextLease)
    }

    method CreateTask(id: nat, analysisType: string, maxAttempts: int, now: int)
      modifies this
      ensures Contents() == Create(old(Contents()), id, NewTask(analysisType, maxAttempts, now))
    {
      if id !in tasks {
        tasks := tasks[id := NewTask(analysisType, maxAttempts, now)];
      }
    }

    /** Claims within the budget of the current minute. */
    method ClaimTasks(now: int, limit: int, tasksPerMinute: int, duration: int,
                      types: Option<seq<string>>, locked: set<nat>)
      returns (claims: seq<Claim>)
      modifies this
      ensures var rows := seq(|claims|, i requires 0 <= i < |claims| => claims[i].id);
        && IsSelection(old(tasks), Candidates(old(tasks), now, types, locked),
                       Available(old(tasks), now, limit, tasksPerMinute), rows)
        && Contents() == ClaimRows(old(Contents()), rows, now, duration)
      ensures forall i :: 0 <= i < |claims| ==> Issued(tasks, claims[i])
    {
      var available := RoomLeft(now, limit, tasksPerMinute);
      if available == 0 {
        return [];
      }
      var rows := SelectRows(tasks, Candidates(tasks, now, types, locked), available);
      DistinctRows(tasks, rows);
      claims := LeaseRows(rows, now, duration);
      assert rows == seq(|claims|, i requires 0 <= i < |claims| => claims[i].id);
    }

    /** Leases the rows one after another. */
    method LeaseRows(rows: seq<nat>, now: int, duration: int) returns (claims: seq<Claim>)
      requires forall i :: 0 <= i < |rows| ==> rows[i] in tasks
      requires forall i, j :: 0 <= i < j < |rows| ==> rows[i] != rows[j]
      modifies this
      ensures |claims| == |rows| && forall i :: 0 <= i < |rows| ==> claims[i].id == rows[i] && Issued(tasks, claims[i])
      ensures Contents() == ClaimRows(old(Contents()), rows, now, duration)
    {
      claims := [];
      for k := 0 to |rows|
        invariant |claims| == k
        invariant forall i :: 0 <= i < k ==> claims[i].id == rows[i] && Issued(tasks, claims[i])
        invariant Contents() == ClaimRows(old(Contents()), rows[..k], now, duration)
        invariant tasks.Keys == old(tasks).Keys
      {
        ClaimRowsExtend(old(Contents()), rows, k, now, duration);
        var claim := LeaseRow(rows[k], now, duration);
        claims := claims + [claim];
      }
      assert rows[..|rows|] == rows;
    }

    /** The room left in the current minute. */
    method RoomLeft(now: int, limit: int, tasksPerMinute: int) returns (available: nat)
      ensures available == Available(tasks, now, limit, tasksPerMinute)
    {
      var alreadyClaimed := |ClaimedSince(tasks, MinuteStart(now))|;
      available := Max(0, Min(limit, tasksPerMinute - alreadyClaimed));
    }

    method LeaseRow(id: nat, now: int, duration: int) returns (claim: Claim)
      requires id in tasks
      modifies this
      ensures tasks == old(tasks)[id := Lease(old(tasks)[id], old(nextLease), now, duration)]
      ensures nextLease == old(nextLease) + 1
      ensures claim.id == id && Issued(tasks, claim)
    {
      var task := tasks[id];
      task := task.(status := Claimed, leaseId := Some(nextLease), leaseExpiresAt := Some(now + duration));
      task := task.(claimedAt := Some(now), attemptCount := task.attemptCount + 1);
      claim := Claim(id, nextLease, task.attemptCount);
      tasks := tasks[id := task];
      nextLease := nextLease + 1;
    }

    method CompleteTask(claim: Claim, at: int, result: Outcome) returns (r: Result<(), TaskError>)
      modifies this
      ensures match Complete(old(Contents()), claim, at, result)
              case Success(q) => r.Success? && Contents() == q
              case Failure(e) => r == Failure(e) && Contents() == old(Contents())
    {
      if claim.id !in tasks {
        return Failure(LostLease);
      }
      var task := tasks[claim.id];
      if task.status == Succeeded {
        if task.result != Some(result) {
          return Failure(ResultConflict);
        }
        return Success(());
      }
      if task.leaseId != Some(claim.leaseId) {
        return Failure(LostLease);
      }
      task := task.(status := Succeeded, completedAt := Some(at), result := Some(result));
      task := task.(leaseId := None, leaseExpiresAt := None);
      tasks := tasks[claim.id := task];
      return Success(());
    }

    method FailTask(claim: Claim, at: int, retryDelay: int) returns (r: Result<(), TaskError>)
      modifies this
      ensures match Fail(old(Contents()), claim, at, retryDelay)
              case Success(q) => r.Success? && Contents() == q
              case Failure(e) => r == Failure(e) && Contents() == old(Contents())
    {
      if claim.id !in tasks || tasks[claim.id].leaseId != Some(claim.leaseId) {
        return Failure(LostLease);
      }
      var task := tasks[claim.id];
      if task.attemptCount >= task.maxAttempts {
        task := task.(status := Failed, notBefore := at, completedAt := Some(at));
      } else {
        task := task.(status := Retry, notBefore := at + retryDelay, completedAt := None);
      }
      tasks := tasks[claim.id := task.(leaseId := None, leaseExpiresAt := None)];
      return Success(());
    }

    method DeferTask(claim: Claim, notBefore: int) returns (r: Result<(), TaskError>)
      modifies this
      ensures match Defer(old(Contents()), claim, notBefore)
              case Success(q) => r.Success? && Contents() == q
              case Failure(e) => r == Failure(e) && Contents() == old(Contents())
    {
      if claim.id !in tasks || tasks[claim.id].leaseId != Some(claim.leaseId) {
        return Failure(LostLease);
      }
      var task := tasks[claim.id];
      task := task.(status := Deferred, notBefore := notBefore);
      task := task.(attemptCount := if 0 < task.attemptCount - 1 then task.attemptCount - 1 else 0);
      tasks := tasks[claim.id := task.(leaseId := None, leaseExpiresAt := None)];
      return Success(());
    }
  }

  /** ORDER BY ... LIMIT over the candidates. */
  method SelectRows(tasks: Tasks, candidates: set<nat>, limit: nat) returns (rows: seq<nat>)
    requires candidates <= tasks.Keys
    ensures IsSelection(tasks, candidates, limit, rows)
  {
    rows := [];
    var rest := candidates;
    while |rows| < limit && rest != {}
      invariant rest <= candidates && |rows| <= limit
      invariant forall id :: id in candidates <==> id in rest || id in rows
      invariant forall i :: 0 <= i < |rows| ==> rows[i] in candidates
      invariant forall i, j :: 0 <= i < j < |rows| ==> Precedes(tasks, rows[i], rows[j])
      invariant forall i, id :: 0 <= i < |rows| && id in rest ==> Precedes(tasks, rows[i], id)
      decreases rest
    {
      var next := First(tasks, rest);
      rows := rows + [next];
      rest := rest - {next};
    }
  }

  method First(tasks: Tasks, ids: set<nat>) returns (first: nat)
    requires ids != {} && ids <= tasks.Keys
    ensures first in ids && forall id :: id in ids && id != first ==> Precedes(tasks, first, id)
  {
    first :| first in ids;
    var rest := ids - {first};
    while rest != {}
      invariant rest <= ids && first in ids && first !in rest
      invariant forall id :: id in ids && id != first && id !in rest ==> Precedes(tasks, first, id)
      decreases rest
    {
      var id :| id in rest;
      rest := rest - {id};
      if Precedes(tasks, id, first) {
        first := id;
      }
    }
  }

  lemma ClaimRowsExtend(q: Queue, rows: seq<nat>, k: nat, now: int, duration: int)
    requires k < |rows|
    ensures var before := ClaimRows(q, rows[..k], now, duration);
      ClaimRows(q, rows[..k + 1], now, duration) ==
      if rows[k] in before.tasks
      then Queue(before.tasks[rows[k] := Lease(before.tasks[rows[k]], before.nextLease, now, duration)],
          before.nextLease + 1)
      else before
  {
    assert rows[..k + 1][..k] == rows[..k];
  }

  lemma DistinctRows(tasks: Tasks, rows: seq<nat>)
    requires forall i :: 0 <= i < |rows| ==> rows[i] in tasks
    requires forall i, j :: 0 <= i < j < |rows| ==> Precedes(tasks, rows[i], rows[j])
    ensures forall i, j :: 0 <= i < j < |rows| ==> rows[i] != rows[j]
  {
  }
}
