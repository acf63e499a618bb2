/** Which rows a claim hands out and what each report writes, in the columns of the task table. */
module CandidateTaskRule {
  import opened CandidateTasks
  import opened CandidateTaskRuns
  import opened Collections
  import opened Quantities
  import opened Wrappers

  // ---------------------------------------------------------------- which rows are claimed

  /** The row waits: it is due, of a wanted type and has an attempt left. */
  predicate Waits(t: Task, now: int, types: Option<seq<string>>) {
    && t.status in {Pending, Retry, Deferred}
    && t.notBefore <= now && t.attemptCount < t.maxAttempts
    && (types.Some? ==> t.analysisType in types.value)
  }

  /** The lease of another worker is over, on the same terms. */
  predicate RanOut(t: Task, now: int, types: Option<seq<string>>) {
    && t.status == Claimed && t.leaseExpiresAt.Some? && t.leaseExpiresAt.value <= now
    && t.notBefore <= now && t.attemptCount < t.maxAttempts
    && (types.Some? ==> t.analysisType in types.value)
  }

  /** Only waiting rows and rows whose lease is over are handed out, and no locked row. */
  lemma OnlyOpenRowsAreClaimed(q: Queue, tasksPerMinute: int, e: Event, id: nat)
    requires e.ClaimedBy? && ReturnsRows(q, tasksPerMinute, e) && id in e.rows
    ensures id in q.tasks && id !in e.locked
    ensures Waits(q.tasks[id], e.at, e.types) || RanOut(q.tasks[id], e.at, e.types)
  {
  }

  /** The row's place in the order of the query. */
  predicate Earlier(a: Task, aId: nat, b: Task, bId: nat) {
    || a.notBefore < b.notBefore
    || (a.notBefore == b.notBefore && a.createdAt < b.createdAt)
    || (a.notBefore == b.notBefore && a.createdAt == b.createdAt && aId < bId)
  }

  /** Rows are handed out in order, and a row that could be is left out only for earlier ones that use
      up the room. */
  lemma ClaimsAreFirstInOrder(q: Queue, tasksPerMinute: int, e: Event)
    requires e.ClaimedBy? && ReturnsRows(q, tasksPerMinute, e)
    ensures forall i :: 0 <= i < |e.rows| ==> e.rows[i] in q.tasks
    ensures forall i, j :: 0 <= i < j < |e.rows| ==>
      Earlier(q.tasks[e.rows[i]], e.rows[i], q.tasks[e.rows[j]], e.rows[j])
    ensures forall i, id :: 0 <= i < |e.rows| && id in OpenRows(q.tasks, e.at, e.types, e.locked) && id !in e.rows ==>
      Earlier(q.tasks[e.rows[i]], e.rows[i], q.tasks[id], id)
  {
    assert Candidates(q.tasks, e.at, e.types, e.locked) == OpenRows(q.tasks, e.at, e.types, e.locked);
  }

  /** The rows that could be handed out. */
  function OpenRows(tasks: Tasks, now: int, types: Option<seq<string>>, locked: set<nat>): set<nat> {
    set id | id in tasks && id !in locked && (Waits(tasks[id], now, types) || RanOut(tasks[id], now, types))
  }

  /** The rows last claimed in the minute of `now`. */
  function ClaimedThisMinute(tasks: Tasks, now: int): set<nat> {
    set id | id in tasks && tasks[id].claimedAt.Some? && now - now % MINUTE <= tasks[id].claimedAt.value
  }

  /** As many rows are handed out as there are open rows, the caller's limit and the minute budget
      allow. */
  lemma ClaimTakesAllThereIsRoomFor(q: Queue, tasksPerMinute: int, e: Event)
    requires e.ClaimedBy? && ReturnsRows(q, tasksPerMinute, e)
    ensures var open := |OpenRows(q.tasks, e.at, e.types, e.locked)|;
      |e.rows| == Min(open, Max(0, Min(e.limit, tasksPerMinute - |ClaimedThisMinute(q.tasks, e.at)|)))
  {
    SelectedRows(q, tasksPerMinute, e);
    assert Candidates(q.tasks, e.at, e.types, e.locked) == OpenRows(q.tasks, e.at, e.types, e.locked);
    assert ClaimedThisMinute(q.tasks, e.at) == ClaimedSince(q.tasks, MinuteStart(e.at));
    SelectionSize(e.rows, OpenRows(q.tasks, e.at, e.types, e.locked),
                  Available(q.tasks, e.at, e.limit, tasksPerMinute));
  }

  /** Distinct rows that leave a candidate out only at the limit. */
  lemma SelectionSize(rows: seq<nat>, candidates: set<nat>, limit: nat)
    requires Distinct(rows) && (forall i :: 0 <= i < |rows| ==> rows[i] in candidates) && |rows| <= limit
    requires |rows| < limit ==> forall id :: id in candidates ==> id in rows
    ensures |rows| == Min(|candidates|, limit)
  {
    DistinctMembers(rows);
    FewerMembers(Members(rows), candidates);
    if |rows| < limit {
      assert Members(rows) == candidates;
    }
  }

  /** A minute starts at a multiple of 60 seconds, no later than now and less than 60 seconds ago. */
  lemma MinuteOf(now: int)
    ensures MinuteStart(now) % (60 * SECOND) == 0 && MinuteStart(now) <= now < MinuteStart(now) + 60 * SECOND
  {
  }

  /** A waiting row is handed out when there is room for all open rows. */
  lemma WaitingRowIsClaimed(q: Queue, tasksPerMinute: int, e: Event, id: nat)
    requires e.ClaimedBy? && ReturnsRows(q, tasksPerMinute, e)
    requires id in q.tasks && id !in e.locked && Waits(q.tasks[id], e.at, e.types)
    requires |OpenRows(q.tasks, e.at, e.types, e.locked)|
          <= Max(0, Min(e.limit, tasksPerMinute - |ClaimedThisMinute(q.tasks, e.at)|))
    ensures id in e.rows
  {
    ClaimTakesAllThereIsRoomFor(q, tasksPerMinute, e);
    SelectedRows(q, tasksPerMinute, e);
    assert Candidates(q.tasks, e.at, e.types, e.locked) == OpenRows(q.tasks, e.at, e.types, e.locked);
    if id !in e.rows {
      OmittedMeansFull(e.rows, OpenRows(q.tasks, e.at, e.types, e.locked), id);
    }
  }

  // ---------------------------------------------------------------- live leases

  /** A claim leaves a row alone whose lease is not over. */
  lemma LiveLeaseIsLeftAlone(q: Queue, tasksPerMinute: int, e: Event, id: nat)
    requires e.ClaimedBy? && id in q.tasks && q.tasks[id].status == Claimed
    requires q.tasks[id].leaseExpiresAt.Some? && e.at < q.tasks[id].leaseExpiresAt.value
    ensures ReturnsRows(q, tasksPerMinute, e) ==> id !in e.rows
    ensures id in StepOf(q, tasksPerMinute, e).tasks && StepOf(q, tasksPerMinute, e).tasks[id] == q.tasks[id]
  {
    if ReturnsRows(q, tasksPerMinute, e) {
      SelectedRows(q, tasksPerMinute, e);
      ClaimRowsEffect(q, e.rows, e.at, e.duration);
    }
  }

  /** A worker that holds a lease is alone with its row until the lease is over: while all claims come
      before then and nobody uses the lease, the row does not change. */
  lemma {:induction false} LiveLeaseIsExclusive(q: Queue, tasksPerMinute: int, events: seq<Event>, id: nat, lease: nat)
    requires id in q.tasks && q.tasks[id].status == Claimed && q.tasks[id].leaseId == Some(lease)
    requires q.tasks[id].leaseExpiresAt.Some?
    requires forall i :: 0 <= i < |events| ==> !Uses(events[i], id, lease)
    requires forall i :: 0 <= i < |events| && events[i].ClaimedBy? ==> events[i].at < q.tasks[id].leaseExpiresAt.value
    ensures var later := Run(q, tasksPerMinute, events).tasks;
      id in later && later[id] == q.tasks[id]
  {
    if events != [] {
      var n := |events| - 1;
      LiveLeaseIsExclusive(q, tasksPerMinute, events[..n], id, lease);
      var before := Run(q, tasksPerMinute, events[..n]);
      if events[n].ClaimedBy? {
        LiveLeaseIsLeftAlone(before, tasksPerMinute, events[n], id);
      }
    }
  }

  // ---------------------------------------------------------------- what each operation writes

  /** A new row waits from now on, without lease, attempt or result; an existing row is kept. */
  lemma CreatedRow(q: Queue, id: nat, analysisType: string, maxAttempts: int, now: int)
    ensures var after := Create(q, id, NewTask(analysisType, maxAttempts, now));
      && after.nextLease == q.nextLease
      && after.tasks.Keys == q.tasks.Keys + {id}
      && (forall k :: k in q.tasks ==> after.tasks[k] == q.tasks[k])
      && (id !in q.tasks ==>
            && after.tasks[id].status == Pending && after.tasks[id].analysisType == analysisType
            && after.tasks[id].notBefore == now == after.tasks[id].createdAt
            && after.tasks[id].attemptCount == 0 && after.tasks[id].maxAttempts == maxAttempts
            && after.tasks[id].leaseId.None? && after.tasks[id].claimedAt.None? && after.tasks[id].result.None?)
  {
  }

  /** The columns that no claim or report writes. */
  predicate SameWork(a: Task, b: Task) {
    a.analysisType == b.analysisType && a.createdAt == b.createdAt && a.maxAttempts == b.maxAttempts
  }

  /** A claimed row is leased from now for the duration and charged one attempt. */
  lemma ClaimedRow(q: Queue, rows: seq<nat>, now: int, duration: int, i: nat)
    requires Distinct(rows) && (forall k :: 0 <= k < |rows| ==> rows[k] in q.tasks) && i < |rows|
    ensures var before, after := q.tasks[rows[i]], ClaimRows(q, rows, now, duration).tasks;
      && rows[i] in after
      && after[rows[i]].status == Claimed && after[rows[i]].leaseId == Some(q.nextLease + i)
      && after[rows[i]].leaseExpiresAt == Some(now + duration) && after[rows[i]].claimedAt == Some(now)
      && after[rows[i]].attemptCount == before.attemptCount + 1
      && after[rows[i]].notBefore == before.notBefore && SameWork(before, after[rows[i]])
  {
    ClaimRowsEffect(q, rows, now, duration);
  }

  /** Completing: the holder stores the result; on a succeeded row the same result is accepted again
      without a change and another one is a conflict; anybody else has lost the lease. */
  lemma CompletedRow(q: Queue, claim: Claim, at: int, result: Outcome)
    ensures var r := Complete(q, claim, at, result);
      if claim.id in q.tasks && q.tasks[claim.id].status == Succeeded then
        r == if q.tasks[claim.id].result == Some(result) then Success(q) else Failure(ResultConflict)
      else if claim.id in q.tasks && q.tasks[claim.id].leaseId == Some(claim.leaseId) then
        && r.Success? && ChangesOnly(q, r.value, claim.id)
        && var t := r.value.tasks[claim.id];
           && t.status == Succeeded && t.result == Some(result) && t.completedAt == Some(at)
           && t.attemptCount == q.tasks[claim.id].attemptCount && SameWork(q.tasks[claim.id], t)
      else r == Failure(LostLease)
  {
  }

  /** Only this row changes, and it gives its lease up. */
  predicate ChangesOnly(q: Queue, after: Queue, id: nat) {
    && after.nextLease == q.nextLease && after.tasks.Keys == q.tasks.Keys && id in q.tasks
    && (forall k :: k in q.tasks && k != id ==> after.tasks[k] == q.tasks[k])
    && after.tasks[id].leaseId.None? && after.tasks[id].leaseExpiresAt.None?
    && after.tasks[id].claimedAt == q.tasks[id].claimedAt
  }

  /** Failing: with an attempt left the row waits again after the delay, otherwise it has failed. */
  lemma FailedRow(q: Queue, claim: Claim, at: int, retryDelay: int)
    ensures var r := Fail(q, claim, at, retryDelay);
      if claim.id in q.tasks && q.tasks[claim.id].leaseId == Some(claim.leaseId) then
        && r.Success? && ChangesOnly(q, r.value, claim.id)
        && var t := r.value.tasks[claim.id];
           && t.attemptCount == q.tasks[claim.id].attemptCount && SameWork(q.tasks[claim.id], t)
           && (if t.attemptCount < t.maxAttempts
               then t.status == Retry && t.notBefore == at + retryDelay && t.completedAt.None?
               else t.status == Failed && t.notBefore == at && t.completedAt == Some(at))
      else r == Failure(LostLease)
  {
  }

  /** Deferring: the row waits until the given time and gets its attempt back. */
  lemma DeferredRow(q: Queue, claim: Claim, notBefore: int)
    requires Ok(q)
    ensures var r := Defer(q, claim, notBefore);
      if claim.id in q.tasks && q.tasks[claim.id].leaseId == Some(claim.leaseId) then
        && r.Success? && ChangesOnly(q, r.value, claim.id)
        && var t := r.value.tasks[claim.id];
           && t.status == Deferred && t.notBefore == notBefore
           && t.attemptCount == q.tasks[claim.id].attemptCount - 1 && SameWork(q.tasks[claim.id], t)
      else r == Failure(LostLease)
  {
    assert claim.id in q.tasks ==> TaskOk(q.tasks[claim.id], q.nextLease);
  }
}
