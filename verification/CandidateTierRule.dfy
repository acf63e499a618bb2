/** When an evaluation changes the candidate tables, and what it writes, in the columns of the tables. */
module CandidateTierRule {
  import opened CandidatePolicy
  import opened CandidateTiers
  import opened Quantities
  import opened Wrappers

  // ---------------------------------------------------------------- when a step is recorded

  /** The record is not older than the stored one, and at the same watermark does not demote. */
  predicate PassesWatermark(states: States, key: StateKey, e: Evidence, target: Tier) {
    key in states ==>
      || states[key].inputWatermark < e.watermark
      || (states[key].inputWatermark == e.watermark && Rank(states[key].tier) <= Rank(target))
  }

  predicate CoverageOver(row: CurrentState, now: int) {
    row.coverageExpiresAt.None? || row.coverageExpiresAt.value <= now
  }

  /** An older record, or one at the same watermark that would demote, changes nothing. */
  lemma LateRecordChangesNothing(db: Tables, key: StateKey, e: Evidence, d: Decision, p: Policy, now: int)
    requires !PassesWatermark(db.states, key, e, d.target)
    ensures Apply(db, key, e, d, p, now) == db
  {
  }

  /** A decision that keeps the stored tier is recorded if and only if it refreshes: an eligible record
      above Tier 0 with other evidence, once the coverage is over and an evaluation is due. */
  lemma RefreshedExactly(db: Tables, key: StateKey, e: Evidence, d: Decision, p: Policy, now: int)
    requires key in db.states && d.target == db.states[key].tier
    ensures var row := db.states[key];
      Apply(db, key, e, d, p, now) != db <==>
        && row.tier != Tier0 && d.eligible
        && row.inputWatermark <= e.watermark
        && CoverageOver(row, now) && row.nextEvaluationAt <= now
        && row.evidence != e
  {
    if Settle(db, key, e, d, p, now).Some? {
      assert Apply(db, key, e, d, p, now).states[key].evidence == e;
    }
  }

  /** What holds a decision for another tier back: coverage that is still in force keeps a token that is
      no longer eligible, and a full Tier 3 refuses one more. */
  predicate HeldBack(db: Tables, key: StateKey, d: Decision, p: Policy, now: int) {
    var previous := if key in db.states then db.states[key].tier else Tier0;
    || (!d.eligible && previous != Tier0 && key in db.states && !CoverageOver(db.states[key], now))
    || (d.target == Tier3 && p.maxTier3Candidates <= |set k | k in db.states && db.states[k].tier == Tier3|)
  }

  /** A decision for another tier takes the token there if and only if its record passes the watermark
      and nothing holds it back. */
  lemma MovedExactly(db: Tables, key: StateKey, e: Evidence, d: Decision, p: Policy, now: int)
    requires d.target != TierOf(db.states, key)
    ensures var after := Apply(db, key, e, d, p, now).states;
      TierOf(after, key) == d.target <==> PassesWatermark(db.states, key, e, d.target) && !HeldBack(db, key, d, p, now)
    ensures TierOf(Apply(db, key, e, d, p, now).states, key) in {d.target, TierOf(db.states, key)}
  {
    assert (set k | k in db.states && db.states[k].tier == Tier3) == Tier3Keys(db.states);
  }

  /** A decision that is held back keeps the tier, and is recorded exactly when it refreshes. */
  lemma HeldBackExactly(db: Tables, key: StateKey, e: Evidence, d: Decision, p: Policy, now: int)
    requires d.target != TierOf(db.states, key) && HeldBack(db, key, d, p, now)
    requires PassesWatermark(db.states, key, e, d.target)
    ensures TierOf(Apply(db, key, e, d, p, now).states, key) == TierOf(db.states, key)
    ensures Apply(db, key, e, d, p, now) != db <==>
      && key in db.states && db.states[key].tier != Tier0 && d.eligible
      && CoverageOver(db.states[key], now) && db.states[key].nextEvaluationAt <= now
      && db.states[key].evidence != e
  {
    assert (set k | k in db.states && db.states[k].tier == Tier3) == Tier3Keys(db.states);
    if Settle(db, key, e, d, p, now).Some? {
      assert Apply(db, key, e, d, p, now).states[key].evidence == e;
    }
  }

  /** An unknown token whose decision is Tier 0 leaves no row. */
  lemma UnknownStaysUnknown(db: Tables, key: StateKey, e: Evidence, d: Decision, p: Policy, now: int)
    requires key !in db.states && d.target == Tier0
    ensures Apply(db, key, e, d, p, now) == db
  {
  }

  // ---------------------------------------------------------------- what a recorded step writes

  /** The schedule row may carry coverage: it already does, or fewer rows than the limit do. */
  predicate SlotFor(schedules: Schedules, token: nat, p: Policy, now: int) {
    && token in schedules
    && (|| (schedules[token].coverageExpiresAt.Some? && now < schedules[token].coverageExpiresAt.value)
        || |set t | t in schedules && schedules[t].coverageExpiresAt.Some?
                    && now < schedules[t].coverageExpiresAt.value| < p.maxActiveCoverage)
  }

  /** Coverage is written to both rows exactly when the token leaves or stays above Tier 0 and has a
      slot; then it lasts as long as the decision says. */
  lemma RecordedCoverage(db: Tables, key: StateKey, e: Evidence, d: Decision, p: Policy, now: int, target: Tier)
    requires Settle(db, key, e, d, p, now) == Some(target)
    ensures var after := Apply(db, key, e, d, p, now);
      && after.states[key].coverageExpiresAt
         == (if target != Tier0 && SlotFor(db.schedules, key.token, p, now) then d.coverageUntil else None)
      && (target != Tier0 && SlotFor(db.schedules, key.token, p, now) && d.coverageUntil.Some? ==>
            after.schedules[key.token].coverageExpiresAt == d.coverageUntil)
  {
    assert (set t | t in db.schedules && db.schedules[t].coverageExpiresAt.Some?
                    && now < db.schedules[t].coverageExpiresAt.value) == ActiveTokens(db.schedules, now);
  }

  /** The other columns of the recorded state row; no other row changes. */
  lemma RecordedState(db: Tables, key: StateKey, e: Evidence, d: Decision, p: Policy, now: int, target: Tier)
    requires Settle(db, key, e, d, p, now) == Some(target)
    ensures var after := Apply(db, key, e, d, p, now);
      && after.states.Keys == db.states.Keys + {key}
      && (forall k :: k in db.states && k != key ==> after.states[k] == db.states[k])
      && after.schedules.Keys == db.schedules.Keys
      && (forall t :: t in db.schedules && t != key.token ==> after.schedules[t] == db.schedules[t])
    ensures var row := Apply(db, key, e, d, p, now).states[key];
      && row.tier == target && row.tierSince == now
      && row.inputWatermark == e.watermark && row.evidence == e
      && row.nextEvaluationAt
         == (if row.coverageExpiresAt.Some? then row.coverageExpiresAt.value else now + 60 * SECOND)
      && row.transition == TransitionId(key, TierOf(db.states, key), target, e)
  {
  }

  /** A refreshed token keeps its tier and gets the new evidence, and with a slot new coverage on both
      rows. */
  lemma RefreshExtends(db: Tables, key: StateKey, e: Evidence, d: Decision, p: Policy, now: int)
    requires key in db.states && d.target == db.states[key].tier && Apply(db, key, e, d, p, now) != db
    ensures var after := Apply(db, key, e, d, p, now);
      && after.states[key].tier == db.states[key].tier
      && after.states[key].evidence == e && after.states[key].inputWatermark == e.watermark
      && (SlotFor(db.schedules, key.token, p, now) && d.coverageUntil.Some? ==>
            && after.states[key].coverageExpiresAt == d.coverageUntil
            && after.schedules[key.token].coverageExpiresAt == d.coverageUntil)
  {
    var target := Settle(db, key, e, d, p, now).value;
    RecordedState(db, key, e, d, p, now, target);
    RecordedCoverage(db, key, e, d, p, now, target);
  }

  /** The lesser of a column and a bound; an absent column takes the bound. */
  predicate IsLesser(after: Option<int>, before: Option<int>, bound: int) {
    && after.Some?
    && (if before.None? then after.value == bound
        else after.value <= before.value && after.value <= bound && after.value in {before.value, bound})
  }

  /** An interval of zero counts as absent. */
  function NonZero(interval: Option<int>): Option<int> { if interval == Some(0) then None else interval }

  /** Granting coverage accelerates the row exactly to the coverage interval, in whole seconds. */
  lemma GrantAccelerates(s: Schedule, target: Tier, until: int, id: TransitionId, p: Policy, now: int)
    requires target != Tier0 && SECOND <= p.coverageInterval
    ensures var after := Overlay(s, target, Some(until), id, p, now);
      var seconds := p.coverageInterval / SECOND;
      && after.coverageExpiresAt == Some(until) && after.coverageInterval == Some(seconds)
      && after.coverageTransition == Some(id)
      && IsLesser(after.nextTransitionAt, s.nextTransitionAt, until)
      && (if s.retired then after.nextDueAt.None? else IsLesser(after.nextDueAt, s.nextDueAt, now + seconds * SECOND))
      && after.priority <= s.priority && after.priority <= 1 && after.priority in {s.priority, 1}
      && IsLesser(after.targetInterval, NonZero(s.targetInterval), seconds)
      && IsLesser(after.effectiveInterval, NonZero(s.effectiveInterval), seconds)
      && after.retired == s.retired && after.updatedAt == now
  {
  }

  /** Without a grant the row loses its overlay when the token is in Tier 0 or the overlay ran out, and
      then is due for a class transition; otherwise only its update time changes. */
  lemma NoGrantOnlyClears(s: Schedule, target: Tier, id: TransitionId, p: Policy, now: int)
    ensures var after := Overlay(s, target, None, id, p, now);
      var cleared := target == Tier0 || (s.coverageExpiresAt.Some? && s.coverageExpiresAt.value <= now);
      after == if cleared
               then s.(coverageExpiresAt := None, coverageInterval := None, coverageTransition := None,
                       nextTransitionAt := Some(now), updatedAt := now)
               else s.(updatedAt := now)
  {
  }
}
