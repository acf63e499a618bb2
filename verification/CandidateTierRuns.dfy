/** What every evaluation of the candidate tables keeps, and what holds over whole runs in which
    evaluations interleave with the poll scheduler. */
module CandidateTierRuns {
  import opened Quantities
  import opened Wrappers
  import opened CandidatePolicy
  import opened CandidateTiers
  import opened Collections

  // ---------------------------------------------------------------- Tier 3 budget

  lemma Tier3KeysAfter(states: States, key: StateKey, s: CurrentState)
    ensures Tier3Keys(states[key := s]) == Tier3Keys(states) - {key} + (if s.tier == Tier3 then {key} else {})
  {
  }

  /** No step, whatever its decision, takes the Tier 3 rows above the limit. */
  lemma StepKeepsTier3Budget(db: Tables, key: StateKey, e: Evidence, d: Decision, p: Policy, now: int)
    requires |Tier3Keys(db.states)| <= p.maxTier3Candidates
    ensures |Tier3Keys(Apply(db, key, e, d, p, now).states)| <= p.maxTier3Candidates
  {
    var settled := Settle(db, key, e, d, p, now);
    if settled.Some? {
      var after := Apply(db, key, e, d, p, now).states;
      Tier3KeysAfter(db.states, key, after[key]);
      if settled.value == Tier3 && TierOf(db.states, key) != Tier3 {
        assert |Tier3Keys(db.states)| < p.maxTier3Candidates;
      } else if settled.value == Tier3 {
        assert Tier3Keys(after) == Tier3Keys(db.states);
      } else {
        FewerMembers(Tier3Keys(after), Tier3Keys(db.states));
      }
    }
  }

  // ---------------------------------------------------------------- coverage budget

  lemma ActiveTokensAfter(schedules: Schedules, token: nat, s: Schedule, now: int)
    requires token in schedules
    ensures ActiveTokens(schedules[token := s], now)
         == ActiveTokens(schedules, now) - {token} + (if InForce(s.coverageExpiresAt, now) then {token} else {})
  {
  }

  lemma ActiveTokensExpire(schedules: Schedules, now: int, later: int)
    requires now <= later
    ensures |ActiveTokens(schedules, later)| <= |ActiveTokens(schedules, now)|
  {
    FewerMembers(ActiveTokens(schedules, later), ActiveTokens(schedules, now));
  }

  /** No step takes the schedules with coverage in force above the limit; extending a row that
      is already active uses no slot. */
  lemma StepKeepsCoverageBudget(db: Tables, key: StateKey, e: Evidence, d: Decision, p: Policy, now: int)
    requires |ActiveTokens(db.schedules, now)| <= p.maxActiveCoverage
    ensures |ActiveTokens(Apply(db, key, e, d, p, now).schedules, now)| <= p.maxActiveCoverage
  {
    var settled := Settle(db, key, e, d, p, now);
    var before := db.schedules;
    if settled.Some? && key.token in before {
      var after := Apply(db, key, e, d, p, now).schedules;
      ActiveTokensAfter(before, key.token, after[key.token], now);
      if InForce(before[key.token].coverageExpiresAt, now) {
        FewerMembers(ActiveTokens(after, now), ActiveTokens(before, now));
      } else if InForce(after[key.token].coverageExpiresAt, now) {
        assert |ActiveTokens(before, now)| < p.maxActiveCoverage;
      } else {
        FewerMembers(ActiveTokens(after, now), ActiveTokens(before, now));
      }
    }
  }

  // ---------------------------------------------------------------- order of one record

  /** The pair (input watermark, tier rank), compared lexicographically; absent is least. */
  predicate AtMost(a: States, b: States, key: StateKey) {
    key in a ==>
      && key in b
      && (|| a[key].inputWatermark < b[key].inputWatermark
          || (a[key].inputWatermark == b[key].inputWatermark && Rank(a[key].tier) <= Rank(b[key].tier)))
  }

  lemma StepOnlyAdvances(db: Tables, key: StateKey, e: Evidence, d: Decision, p: Policy, now: int, other: StateKey)
    ensures AtMost(db.states, Apply(db, key, e, d, p, now).states, other)
    ensures other != key && other in db.states ==> Apply(db, key, e, d, p, now).states[other] == db.states[other]
  {
  }

  // ---------------------------------------------------------------- schedule rows

  /** The table constraints on the overlay columns and on retired rows. */
  predicate WellFormed(s: Schedule) {
    && (|| (s.coverageExpiresAt.None? && s.coverageInterval.None? && s.coverageTransition.None?)
        || (&& s.coverageExpiresAt.Some? && s.coverageInterval.Some? && s.coverageTransition.Some?
            && 0 < s.coverageInterval.value))
    && (s.retired ==> s.nextDueAt.None?)
    && (s.targetInterval.Some? ==> 0 < s.targetInterval.value)
    && (s.effectiveInterval.Some? ==> 0 < s.effectiveInterval.value)
  }

  predicate AllWellFormed(schedules: Schedules) {
    forall t :: t in schedules ==> WellFormed(schedules[t])
  }

  lemma StepKeepsSchedulesWellFormed(db: Tables, key: StateKey, e: Evidence, d: Decision, p: Policy, now: int)
    requires SECOND <= p.coverageInterval && AllWellFormed(db.schedules)
    ensures AllWellFormed(Apply(db, key, e, d, p, now).schedules)
    ensures Apply(db, key, e, d, p, now).schedules.Keys == db.schedules.Keys
  {
    var settled := Settle(db, key, e, d, p, now);
    if settled.Some? && key.token in db.schedules {
      var granted := Grant(db.schedules, key.token, d, p, now, settled.value);
      var id := TransitionId(key, TierOf(db.states, key), settled.value, e);
      OverlayIsWellFormed(db.schedules[key.token], settled.value, granted, id, p, now);
    }
  }

  lemma OverlayIsWellFormed(s: Schedule, target: Tier, granted: Option<int>, id: TransitionId, p: Policy, now: int)
    requires SECOND <= p.coverageInterval && WellFormed(s)
    ensures WellFormed(Overlay(s, target, granted, id, p, now))
  {
    assert 1 <= p.coverageInterval / SECOND;
  }

  predicate NoLater(a: Option<int>, b: Option<int>) {
    b.Some? ==> a.Some? && a.value <= b.value
  }

  /** Granting coverage only tightens: the row is due no later and at least within one coverage
      interval unless it is retired, its priority value and intervals do not grow, and the next
      class transition is no later than the end of the coverage. */
  lemma GrantOnlyTightens(s: Schedule, target: Tier, until: int, id: TransitionId, p: Policy, now: int)
    requires target != Tier0 && WellFormed(s)
    ensures var after := Overlay(s, target, Some(until), id, p, now);
      var seconds := p.coverageInterval / SECOND;
      && after.coverageExpiresAt == Some(until)
      && (if s.retired then after.nextDueAt.None?
          else NoLater(after.nextDueAt, s.nextDueAt) && after.nextDueAt.value <= now + seconds * SECOND)
      && after.priority <= s.priority && after.priority <= 1
      && NoLater(after.targetInterval, s.targetInterval) && after.targetInterval.value <= seconds
      && NoLater(after.effectiveInterval, s.effectiveInterval) && after.effectiveInterval.value <= seconds
      && NoLater(after.nextTransitionAt, s.nextTransitionAt) && after.nextTransitionAt.value <= until
      && after.retired == s.retired
  {
  }

  // ---------------------------------------------------------------- state and overlay agree

  function StateExpiry(states: States, key: StateKey): Option<int> {
    if key in states then states[key].coverageExpiresAt else None
  }

  function ScheduleExpiry(schedules: Schedules, token: nat): Option<int> {
    if token in schedules then schedules[token].coverageExpiresAt else None
  }

  predicate TokenEqual(db: Tables, epoch: nat, token: nat) {
    ScheduleExpiry(db.schedules, token) == StateExpiry(db.states, StateKey(epoch, token))
  }

  /** The schedule's coverage expiry is the recorded one, or the scheduler cleared it after it ran
      out. */
  predicate TokenAgrees(db: Tables, epoch: nat, now: int, token: nat) {
    var recorded := StateExpiry(db.states, StateKey(epoch, token));
    || TokenEqual(db, epoch, token)
    || (ScheduleExpiry(db.schedules, token).None? && recorded.Some? && recorded.value <= now)
  }

  ghost predicate AllEqual(db: Tables, epoch: nat) {
    forall t: nat :: TokenEqual(db, epoch, t)
  }

  ghost predicate Agrees(db: Tables, epoch: nat, now: int) {
    forall t: nat :: TokenAgrees(db, epoch, now, t)
  }

  lemma AgreesLater(db: Tables, epoch: nat, now: int, later: int)
    requires now <= later && Agrees(db, epoch, now)
    ensures Agrees(db, epoch, later)
  {
    forall t: nat
      ensures TokenAgrees(db, epoch, later, t)
    {
      assert TokenAgrees(db, epoch, now, t);
    }
  }

  /** A recorded step writes the same coverage to both rows, whatever they held before. */
  lemma SettledCoverageAgrees(db: Tables, key: StateKey, e: Evidence, d: Decision, p: Policy, now: int, target: Tier)
    requires Settle(db, key, e, d, p, now) == Some(target)
    requires d.eligible <==> d.target != Tier0
    requires d.coverageUntil.Some? <==> d.eligible
    ensures var after := Record(db, key, e, d, p, now, target);
      ScheduleExpiry(after.schedules, key.token) == StateExpiry(after.states, key)
  {
  }

  /** After an evaluation, even one taken against a stale tier and at any time, the evaluated token
      has equal expiries or kept both, and no other token is touched. */
  lemma EvaluatedExpiries(db: Tables, p: Policy, epoch: nat, e: Evidence, readTier: Tier, t: nat)
    ensures var after := EvaluateAt(db, p, epoch, e, readTier);
      || TokenEqual(after, epoch, t)
      || (&& ScheduleExpiry(after.schedules, t) == ScheduleExpiry(db.schedules, t)
          && StateExpiry(after.states, StateKey(epoch, t)) == StateExpiry(db.states, StateKey(epoch, t)))
    ensures t != e.tokenId ==>
      var after := EvaluateAt(db, p, epoch, e, readTier);
      && ScheduleExpiry(after.schedules, t) == ScheduleExpiry(db.schedules, t)
      && StateExpiry(after.states, StateKey(epoch, t)) == StateExpiry(db.states, StateKey(epoch, t))
  {
    var now, key, d := e.evaluatedAt, StateKey(epoch, e.tokenId), p.Evaluate(e, readTier);
    EvaluateTargets(p, e, readTier);
    var settled := Settle(db, key, e, d, p, now);
    if settled.Some? && t == e.tokenId {
      SettledCoverageAgrees(db, key, e, d, p, now, settled.value);
    }
  }

  /** Every evaluation keeps the expiries of all tokens equal, at any time and against any tier. */
  lemma StepKeepsEquality(db: Tables, p: Policy, epoch: nat, e: Evidence, readTier: Tier)
    requires AllEqual(db, epoch)
    ensures AllEqual(EvaluateAt(db, p, epoch, e, readTier), epoch)
  {
    forall t: nat
      ensures TokenEqual(EvaluateAt(db, p, epoch, e, readTier), epoch, t)
    {
      assert TokenEqual(db, epoch, t);
      EvaluatedExpiries(db, p, epoch, e, readTier, t);
    }
  }

  /** ... and keeps the agreement that scheduler writes leave. */
  lemma StepKeepsAgreement(db: Tables, p: Policy, epoch: nat, e: Evidence, readTier: Tier, now: int)
    requires Agrees(db, epoch, now)
    ensures Agrees(EvaluateAt(db, p, epoch, e, readTier), epoch, now)
  {
    forall t: nat
      ensures TokenAgrees(EvaluateAt(db, p, epoch, e, readTier), epoch, now, t)
    {
      assert TokenAgrees(db, epoch, now, t);
      EvaluatedExpiries(db, p, epoch, e, readTier, t);
    }
  }

  /** A token returns to Tier 0 only when no coverage of its record is in force: it was not
      admitted, or it has expired. */
  lemma Tier0NeedsNoCoverage(db: Tables, p: Policy, epoch: nat, e: Evidence, readTier: Tier)
    requires var key := StateKey(epoch, e.tokenId);
      && TierOf(db.states, key) != Tier0
      && TierOf(EvaluateAt(db, p, epoch, e, readTier).states, key) == Tier0
    ensures var key := StateKey(epoch, e.tokenId);
      && key in db.states
      && !InForce(db.states[key].coverageExpiresAt, e.evaluatedAt)
  {
    EvaluateTargets(p, e, readTier);
  }

  // ---------------------------------------------------------------- tier entries

  /** Tier entries when the tier read and the write are one step: Tier 3 only from Tier 2, Tier 2
      only from Tier 1, Tier 1 from any tier, Tier 4 never. */
  lemma AtomicEntries(db: Tables, p: Policy, epoch: nat, e: Evidence)
    ensures var key := StateKey(epoch, e.tokenId);
      var before, after := TierOf(db.states, key), TierOf(EvaluateNow(db, p, epoch, e).states, key);
      before != after ==>
        && (after == Tier3 ==> before == Tier2)
        && (after == Tier2 ==> before == Tier1)
        && after != Tier4
  {
    EvaluateTargets(p, e, TierOf(db.states, StateKey(epoch, e.tokenId)));
  }

  /** The stored record lets a decision for `target` through. */
  predicate LetsThrough(db: Tables, key: StateKey, e: Evidence, target: Tier) {
    key in db.states ==>
      && db.states[key].inputWatermark <= e.watermark
      && (db.states[key].inputWatermark == e.watermark ==> Rank(db.states[key].tier) <= Rank(target))
  }

  /** When a decision taken against any tier, read at any earlier time, enters Tier 3 or Tier 2. */
  predicate EntersTier3(db: Tables, p: Policy, key: StateKey, e: Evidence, readTier: Tier) {
    && TierOf(db.states, key) != Tier3
    && readTier in {Tier2, Tier3} && p.DeepReview(e)
    && |Tier3Keys(db.states)| < p.maxTier3Candidates
    && LetsThrough(db, key, e, Tier3)
  }

  predicate EntersTier2(db: Tables, p: Policy, key: StateKey, e: Evidence, readTier: Tier) {
    && TierOf(db.states, key) != Tier2
    && readTier in {Tier1, Tier2} && !(readTier == Tier2 && p.DeepReview(e))
    && Active(p, e) && e.market.Meets(p.tier2Market) && p.SecurityFresh(e)
    && LetsThrough(db, key, e, Tier2)
  }

  /** The ladder is skipped exactly when an entering decision meets a stored tier that is not the
      rung below, which needs a tier read that is no longer the stored one. */
  lemma LadderIsSkippedExactly(db: Tables, p: Policy, epoch: nat, e: Evidence, readTier: Tier)
    ensures var key := StateKey(epoch, e.tokenId);
      var before, after := TierOf(db.states, key), TierOf(EvaluateAt(db, p, epoch, e, readTier).states, key);
      && (before != Tier3 && after == Tier3 <==> EntersTier3(db, p, key, e, readTier))
      && (before != Tier2 && after == Tier2 <==> EntersTier2(db, p, key, e, readTier))
      && (readTier == before && EntersTier3(db, p, key, e, readTier) ==> before == Tier2)
      && (readTier == before && EntersTier2(db, p, key, e, readTier) ==> before == Tier1)
  {
    EvaluateTargets(p, e, readTier);
  }

  // ---------------------------------------------------------------- replaying one record

  function Replay(db: Tables, p: Policy, epoch: nat, e: Evidence, times: nat): Tables {
    if times == 0 then db else EvaluateNow(Replay(db, p, epoch, e, times - 1), p, epoch, e)
  }

  /** The record has been applied: its watermark and digest are the stored ones. */
  predicate Recorded(db: Tables, epoch: nat, e: Evidence) {
    var key := StateKey(epoch, e.tokenId);
    key in db.states && db.states[key].inputWatermark == e.watermark && db.states[key].evidence == e
  }

  /** A first application that changes anything records the evidence. */
  lemma ChangeRecords(db: Tables, p: Policy, epoch: nat, e: Evidence)
    requires EvaluateNow(db, p, epoch, e) != db
    ensures Recorded(EvaluateNow(db, p, epoch, e), epoch, e)
    ensures Rank(EvaluateNow(db, p, epoch, e).states[StateKey(epoch, e.tokenId)].tier) <= 3
  {
    EvaluateTargets(p, e, TierOf(db.states, StateKey(epoch, e.tokenId)));
  }

  /** Replaying a recorded evidence either changes nothing or strictly raises the tier. */
  lemma ReplayRaisesOrStays(db: Tables, p: Policy, epoch: nat, e: Evidence)
    requires Recorded(db, epoch, e)
    ensures var key := StateKey(epoch, e.tokenId);
      var after := EvaluateNow(db, p, epoch, e);
      && Recorded(after, epoch, e)
      && (after != db ==> Rank(db.states[key].tier) < Rank(after.states[key].tier) <= 3)
  {
    EvaluateTargets(p, e, TierOf(db.states, StateKey(epoch, e.tokenId)));
  }

  /** After the first recorded transition each replay strictly raises the tier or stays. */
  lemma ReplayOnlyRaises(db: Tables, p: Policy, epoch: nat, e: Evidence, n: nat)
    requires EvaluateNow(db, p, epoch, e) != db
    ensures var key := StateKey(epoch, e.tokenId);
      var first := EvaluateNow(db, p, epoch, e);
      var a, b := Replay(first, p, epoch, e, n), Replay(first, p, epoch, e, n + 1);
      key in a.states && key in b.states && (a == b || Rank(a.states[key].tier) < Rank(b.states[key].tier))
  {
    var first := EvaluateNow(db, p, epoch, e);
    ChangeRecords(db, p, epoch, e);
    ReplayRanks(first, p, epoch, e, n);
    ReplayRaisesOrStays(Replay(first, p, epoch, e, n), p, epoch, e);
  }

  /** ... and three more replays reach a fixed point. */
  lemma ReplayReachesFixedPoint(db: Tables, p: Policy, epoch: nat, e: Evidence, more: nat)
    requires EvaluateNow(db, p, epoch, e) != db
    ensures var first := EvaluateNow(db, p, epoch, e);
      Replay(first, p, epoch, e, 3 + more) == Replay(first, p, epoch, e, 3)
  {
    var first := EvaluateNow(db, p, epoch, e);
    ChangeRecords(db, p, epoch, e);
    ReplayRanks(first, p, epoch, e, 3);
    ReplayRaisesOrStays(Replay(first, p, epoch, e, 3), p, epoch, e);
    FixedFromThree(first, p, epoch, e, more);
  }

  /** After n replays the tier has rank n or more, or replaying changes nothing. */
  predicate Climbed(a: Tables, p: Policy, epoch: nat, e: Evidence, n: nat) {
    && Recorded(a, epoch, e)
    && Rank(a.states[StateKey(epoch, e.tokenId)].tier) <= 3
    && (n <= Rank(a.states[StateKey(epoch, e.tokenId)].tier) || EvaluateNow(a, p, epoch, e) == a)
  }

  lemma ClimbStep(a: Tables, p: Policy, epoch: nat, e: Evidence, n: nat)
    requires Climbed(a, p, epoch, e, n)
    ensures Climbed(EvaluateNow(a, p, epoch, e), p, epoch, e, n + 1)
  {
    ReplayRaisesOrStays(a, p, epoch, e);
  }

  lemma {:induction false} ReplayRanks(first: Tables, p: Policy, epoch: nat, e: Evidence, n: nat)
    requires Climbed(first, p, epoch, e, 0)
    ensures Climbed(Replay(first, p, epoch, e, n), p, epoch, e, n)
  {
    if 0 < n {
      ReplayRanks(first, p, epoch, e, n - 1);
      ClimbStep(Replay(first, p, epoch, e, n - 1), p, epoch, e, n - 1);
    }
  }

  /** Replays of which any may be rolled back, as when its event rows meet an integrity conflict. */
  function ReplaySome(db: Tables, p: Policy, epoch: nat, e: Evidence, commits: seq<bool>): Tables {
    if commits == [] then db
    else
      var before := ReplaySome(db, p, epoch, e, commits[..|commits| - 1]);
      if commits[|commits| - 1] then EvaluateNow(before, p, epoch, e) else before
  }

  /** How many of them change the tables. */
  function ReplayChanges(db: Tables, p: Policy, epoch: nat, e: Evidence, commits: seq<bool>): nat {
    if commits == [] then 0
    else
      var earlier := commits[..|commits| - 1];
      ReplayChanges(db, p, epoch, e, earlier)
      + if ReplaySome(db, p, epoch, e, earlier) != ReplaySome(db, p, epoch, e, commits) then 1 else 0
  }

  /** Every change is one more rung. */
  lemma {:induction false} ReplayChangesClimb(first: Tables, p: Policy, epoch: nat, e: Evidence, commits: seq<bool>)
    requires Climbed(first, p, epoch, e, 0)
    ensures var after := ReplaySome(first, p, epoch, e, commits);
      && Climbed(after, p, epoch, e, 0)
      && ReplayChanges(first, p, epoch, e, commits) <= Rank(after.states[StateKey(epoch, e.tokenId)].tier)
  {
    if commits != [] {
      var earlier := commits[..|commits| - 1];
      ReplayChangesClimb(first, p, epoch, e, earlier);
      ReplayRaisesOrStays(ReplaySome(first, p, epoch, e, earlier), p, epoch, e);
    }
  }

  /** After the first recorded transition at most three replays change the tables, whichever of
      them are rolled back. */
  lemma ThreeReplaysChange(db: Tables, p: Policy, epoch: nat, e: Evidence, commits: seq<bool>)
    requires EvaluateNow(db, p, epoch, e) != db
    ensures ReplayChanges(EvaluateNow(db, p, epoch, e), p, epoch, e, commits) <= 3
  {
    var first := EvaluateNow(db, p, epoch, e);
    ChangeRecords(db, p, epoch, e);
    ReplayChangesClimb(first, p, epoch, e, commits);
  }

  lemma {:induction false} FixedFromThree(first: Tables, p: Policy, epoch: nat, e: Evidence, more: nat)
    requires var a := Replay(first, p, epoch, e, 3); EvaluateNow(a, p, epoch, e) == a
    ensures Replay(first, p, epoch, e, 3 + more) == Replay(first, p, epoch, e, 3)
  {
    if 0 < more {
      FixedFromThree(first, p, epoch, e, more - 1);
      assert Replay(first, p, epoch, e, 3 + more)
          == EvaluateNow(Replay(first, p, epoch, e, 3 + (more - 1)), p, epoch, e);
    }
  }

  // ---------------------------------------------------------------- whole runs

  /** An evaluation, whose decision was taken against some tier read earlier, or a write of the
      poll scheduler. */
  datatype Event =
    | Evaluated(epoch: nat, evidence: Evidence, readTier: Tier)
    | Rescheduled(at: int, rows: Schedules)
  {
    function Time(): int {
      if Evaluated? then evidence.evaluatedAt else at
    }
  }

  predicate SameOverlay(a: Schedule, b: Schedule) {
    && a.coverageExpiresAt == b.coverageExpiresAt
    && a.coverageInterval == b.coverageInterval
    && a.coverageTransition == b.coverageTransition
  }

  /** The scheduler adds rows without coverage, rewrites the other columns, and removes a
      coverage overlay only after it expired. */
  predicate SchedulerMayWrite(before: Schedules, after: Schedules, now: int) {
    && before.Keys <= after.Keys
    && AllWellFormed(after)
    && forall t :: t in after ==>
         if t in before && !(after[t].coverageExpiresAt.None? && !InForce(before[t].coverageExpiresAt, now))
         then SameOverlay(before[t], after[t])
         else after[t].coverageExpiresAt.None?
  }

  function StepOf(db: Tables, p: Policy, event: Event): Tables {
    match event
    case Evaluated(epoch, e, readTier) => EvaluateAt(db, p, epoch, e, readTier)
    case Rescheduled(at, rows) => if SchedulerMayWrite(db.schedules, rows, at) then db.(schedules := rows) else db
  }

  function Run(db: Tables, p: Policy, events: seq<Event>): Tables {
    if events == [] then db
    else StepOf(Run(db, p, events[..|events| - 1]), p, events[|events| - 1])
  }

  function TimeAfter(start: int, events: seq<Event>): int {
    if events == [] then start else events[|events| - 1].Time()
  }

  predicate InOrder(start: int, events: seq<Event>) {
    forall i :: 0 <= i < |events| ==> TimeAfter(start, events[..i]) <= events[i].Time()
  }

  predicate WithinBudgets(db: Tables, p: Policy, now: int) {
    && |Tier3Keys(db.states)| <= p.maxTier3Candidates
    && |ActiveTokens(db.schedules, now)| <= p.maxActiveCoverage
  }

  lemma StepKeepsBudgets(db: Tables, p: Policy, now: int, event: Event)
    requires WithinBudgets(db, p, now) && now <= event.Time()
    ensures WithinBudgets(StepOf(db, p, event), p, event.Time())
  {
    ActiveTokensExpire(db.schedules, now, event.Time());
    match event
    case Evaluated(epoch, e, readTier) =>
      StepKeepsTier3Budget(db, StateKey(epoch, e.tokenId), e, p.Evaluate(e, readTier), p, e.evaluatedAt);
      StepKeepsCoverageBudget(db, StateKey(epoch, e.tokenId), e, p.Evaluate(e, readTier), p, e.evaluatedAt);
    case Rescheduled(at, rows) =>
      var after := StepOf(db, p, event).schedules;
      FewerMembers(ActiveTokens(after, at), ActiveTokens(db.schedules, at));
  }

  /** Both global budgets hold in every state reachable with times that do not go back. */
  lemma {:induction false} RunKeepsBudgets(db: Tables, p: Policy, start: int, events: seq<Event>)
    requires WithinBudgets(db, p, start) && InOrder(start, events)
    ensures WithinBudgets(Run(db, p, events), p, TimeAfter(start, events))
  {
    if events != [] {
      var n := |events| - 1;
      PrefixInOrder(start, events, n);
      RunKeepsBudgets(db, p, start, events[..n]);
      StepKeepsBudgets(Run(db, p, events[..n]), p, TimeAfter(start, events[..n]), events[n]);
    }
  }

  lemma PrefixInOrder(start: int, events: seq<Event>, n: nat)
    requires n <= |events| && InOrder(start, events)
    ensures InOrder(start, events[..n])
  {
    forall i | 0 <= i < n
      ensures TimeAfter(start, events[..n][..i]) <= events[..n][i].Time()
    {
      assert events[..n][..i] == events[..i];
    }
  }

  /** Schedule rows stay well formed, and in a run of one epoch the scheduled coverage expiry is the
      recorded one unless the scheduler cleared it after it ran out, in every reachable state. */
  lemma {:induction false} RunKeepsAgreement(db: Tables, p: Policy, epoch: nat, start: int, events: seq<Event>)
    requires SECOND <= p.coverageInterval
    requires AllWellFormed(db.schedules) && Agrees(db, epoch, start) && InOrder(start, events)
    requires forall i :: 0 <= i < |events| && events[i].Evaluated? ==> events[i].epoch == epoch
    ensures AllWellFormed(Run(db, p, events).schedules)
    ensures Agrees(Run(db, p, events), epoch, TimeAfter(start, events))
  {
    if events != [] {
      var n := |events| - 1;
      PrefixInOrder(start, events, n);
      RunKeepsAgreement(db, p, epoch, start, events[..n]);
      var before := Run(db, p, events[..n]);
      AgreesLater(before, epoch, TimeAfter(start, events[..n]), events[n].Time());
      match events[n]
      case Evaluated(_, e, readTier) =>
        StepKeepsAgreement(before, p, epoch, e, readTier, events[n].Time());
        StepKeepsSchedulesWellFormed(before, StateKey(epoch, e.tokenId), e, p.Evaluate(e, readTier), p, e.evaluatedAt);
      case Rescheduled(at, rows) =>
        if SchedulerMayWrite(before.schedules, rows, at) {
          ReschedulingKeepsAgreement(before, epoch, at, rows);
        }
    }
  }

  lemma ReschedulingKeepsAgreement(db: Tables, epoch: nat, at: int, rows: Schedules)
    requires Agrees(db, epoch, at) && SchedulerMayWrite(db.schedules, rows, at)
    ensures Agrees(db.(schedules := rows), epoch, at)
  {
    forall t: nat
      ensures TokenAgrees(db.(schedules := rows), epoch, at, t)
    {
      assert TokenAgrees(db, epoch, at, t);
    }
  }

  /** Over a run, with times in any order, the record of a token only advances. */
  lemma {:induction false} RunOnlyAdvances(db: Tables, p: Policy, events: seq<Event>, key: StateKey)
    ensures AtMost(db.states, Run(db, p, events).states, key)
  {
    if events != [] {
      var n := |events| - 1;
      RunOnlyAdvances(db, p, events[..n], key);
      var before := Run(db, p, events[..n]);
      if events[n].Evaluated? {
        var Evaluated(epoch, e, readTier) := events[n];
        StepOnlyAdvances(before, StateKey(epoch, e.tokenId), e, p.Evaluate(e, readTier), p, e.evaluatedAt, key);
      }
    }
  }

  /** Every decision of the run was taken against the stored tier. */
  predicate Atomic(db: Tables, p: Policy, events: seq<Event>) {
    forall i :: 0 <= i < |events| && events[i].Evaluated? ==>
      events[i].readTier
      == TierOf(Run(db, p, events[..i]).states, StateKey(events[i].epoch, events[i].evidence.tokenId))
  }

  /** One rung up at a time, and never to the pre-trade tier. */
  predicate ClimbsOneRung(before: Tier, after: Tier) {
    before != after ==>
      && (after == Tier3 ==> before == Tier2)
      && (after == Tier2 ==> before == Tier1)
      && after != Tier4
  }

  lemma AtomicStep(db: Tables, p: Policy, event: Event, key: StateKey)
    requires event.Evaluated? ==>
      event.readTier == TierOf(db.states, StateKey(event.epoch, event.evidence.tokenId))
    ensures ClimbsOneRung(TierOf(db.states, key), TierOf(StepOf(db, p, event).states, key))
  {
    if event.Evaluated? {
      AtomicEntries(db, p, event.epoch, event.evidence);
    }
  }

  /** Where the token stands after n events. */
  function StandsOn(db: Tables, p: Policy, events: seq<Event>, n: nat, key: StateKey): Tier
    requires n <= |events|
  {
    TierOf(Run(db, p, events[..n]).states, key)
  }

  lemma AtomicNext(db: Tables, p: Policy, events: seq<Event>, n: nat, key: StateKey)
    requires n < |events| && Atomic(db, p, events)
    ensures ClimbsOneRung(StandsOn(db, p, events, n, key), StandsOn(db, p, events, n + 1, key))
  {
    assert events[..n + 1][..n] == events[..n];
    AtomicStep(Run(db, p, events[..n]), p, events[n], key);
  }

  lemma RungIsReached(before: Tier, after: Tier, rung: Tier)
    requires ClimbsOneRung(before, after) && Rank(before) < Rank(rung) <= Rank(after)
    ensures after == rung && rung != Tier4
  {
  }

  lemma {:induction false} RungIsClimbedBy(db: Tables, p: Policy, events: seq<Event>, n: nat, key: StateKey, rung: Tier)
    returns (at: nat)
    requires Atomic(db, p, events) && n <= |events|
    requires Rank(TierOf(db.states, key)) < Rank(rung) <= Rank(StandsOn(db, p, events, n, key))
    ensures at <= n && StandsOn(db, p, events, at, key) == rung && rung != Tier4
  {
    if n == 0 {
      assert false;
    } else if Rank(rung) <= Rank(StandsOn(db, p, events, n - 1, key)) {
      at := RungIsClimbedBy(db, p, events, n - 1, key, rung);
    } else {
      at := n;
      AtomicNext(db, p, events, n - 1, key);
      RungIsReached(StandsOn(db, p, events, n - 1, key), StandsOn(db, p, events, n, key), rung);
    }
  }

  /** In an atomic run a token that started below the rung has stood on every rung below the one
      it stands on, and never stands on the pre-trade tier. */
  lemma EveryRungIsClimbed(db: Tables, p: Policy, events: seq<Event>, key: StateKey, rung: Tier) returns (at: nat)
    requires Atomic(db, p, events)
    requires Rank(TierOf(db.states, key)) < Rank(rung) <= Rank(TierOf(Run(db, p, events).states, key))
    ensures at <= |events| && TierOf(Run(db, p, events[..at]).states, key) == rung
    ensures rung != Tier4
  {
    assert events[..|events|] == events;
    at := RungIsClimbedBy(db, p, events, |events|, key, rung);
  }

  /** With evaluations only, at any times and against any tiers, the expiries stay exactly equal. */
  lemma {:induction false} RunKeepsEquality(db: Tables, p: Policy, epoch: nat, events: seq<Event>)
    requires AllEqual(db, epoch)
    requires forall i :: 0 <= i < |events| ==> events[i].Evaluated? && events[i].epoch == epoch
    ensures AllEqual(Run(db, p, events), epoch)
  {
    if events != [] {
      var n := |events| - 1;
      RunKeepsEquality(db, p, epoch, events[..n]);
      StepKeepsEquality(Run(db, p, events[..n]), p, epoch, events[n].evidence, events[n].readTier);
    }
  }
}
