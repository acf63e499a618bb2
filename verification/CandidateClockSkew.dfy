/** The global budgets when the clocks of the evaluations go back: exactly which step takes the
    coverage above its limit at the highest time seen so far. */
module CandidateClockSkew {
  import opened Collections
  import opened Quantities
  import opened Wrappers
  import opened CandidatePolicy
  import opened CandidateTiers
  import opened CandidateTierRuns
  import opened StaleTierRead

  // ---------------------------------------------------------------- one evaluation

  /** The step extends, beyond `high`, coverage that was in force at its own time and has run out at
      `high`. */
  predicate RevivesLapsed(db: Tables, key: StateKey, e: Evidence, d: Decision, p: Policy, now: int, high: int) {
    var settled := Settle(db, key, e, d, p, now);
    && settled.Some? && settled.value != Tier0 && key.token in db.schedules
    && InForce(db.schedules[key.token].coverageExpiresAt, now)
    && !InForce(db.schedules[key.token].coverageExpiresAt, high)
    && InForce(d.coverageUntil, high)
  }

  predicate WithinCoverage(db: Tables, p: Policy, high: int) {
    |ActiveTokens(db.schedules, high)| <= p.maxActiveCoverage
  }

  /** What the step does to the schedules in force at `high`. */
  lemma ActiveAtHigh(db: Tables, key: StateKey, e: Evidence, d: Decision, p: Policy, now: int, high: int)
    requires now <= high
    ensures var before, after := db.schedules, Apply(db, key, e, d, p, now).schedules;
      if RevivesLapsed(db, key, e, d, p, now, high)
      then ActiveTokens(after, high) == ActiveTokens(before, high) + {key.token}
          && key.token !in ActiveTokens(before, high)
      else
        || ActiveTokens(after, high) <= ActiveTokens(before, high)
        || (&& |ActiveTokens(before, now)| < p.maxActiveCoverage
            && ActiveTokens(after, high) <= ActiveTokens(before, high) + {key.token})
  {
    var settled := Settle(db, key, e, d, p, now);
    if settled.Some? && key.token in db.schedules {
      var after := Apply(db, key, e, d, p, now).schedules;
      ActiveTokensAfter(db.schedules, key.token, after[key.token], high);
    }
  }

  lemma OneMoreMember(s: set<nat>, x: nat)
    ensures |s + {x}| <= |s| + 1 && (x !in s ==> |s + {x}| == |s| + 1)
  {
  }

  /** From within the limit at `high`, a step at an earlier or equal time exceeds it there if and only
      if it revives lapsed coverage while the limit is full. */
  lemma StepKeepsHighCoverageExactly(db: Tables, key: StateKey, e: Evidence, d: Decision, p: Policy, now: int,
                                     high: int)
    requires now <= high && WithinCoverage(db, p, high)
    ensures WithinCoverage(Apply(db, key, e, d, p, now), p, high) <==>
            !(RevivesLapsed(db, key, e, d, p, now, high) && |ActiveTokens(db.schedules, high)| == p.maxActiveCoverage)
  {
    var before, after := ActiveTokens(db.schedules, high), ActiveTokens(Apply(db, key, e, d, p, now).schedules, high);
    ActiveAtHigh(db, key, e, d, p, now, high);
    OneMoreMember(before, key.token);
    ActiveTokensExpire(db.schedules, now, high);
    if after <= before {
      FewerMembers(after, before);
    } else {
      FewerMembers(after, before + {key.token});
    }
  }

  // ---------------------------------------------------------------- runs in any order of times

  /** The highest time after the first n events. */
  function High(start: int, events: seq<Event>, n: nat): int
    requires n <= |events|
  {
    if n == 0 then start else Max(High(start, events, n - 1), events[n - 1].Time())
  }

  /** Event n exceeds the coverage limit at the highest time so far. */
  predicate Overfills(db: Tables, p: Policy, start: int, events: seq<Event>, n: nat)
    requires n < |events|
  {
    var high := High(start, events, n + 1);
    var before := Run(db, p, events[..n]);
    match events[n]
    case Evaluated(epoch, e, readTier) =>
      && RevivesLapsed(before, StateKey(epoch, e.tokenId), e, p.Evaluate(e, readTier), p, e.evaluatedAt, high)
      && |ActiveTokens(before.schedules, high)| == p.maxActiveCoverage
    case Rescheduled(_, _) => false
  }

  /** Both budgets hold after the first n events, at the highest time so far. */
  predicate WithinAfter(db: Tables, p: Policy, start: int, events: seq<Event>, n: nat)
    requires n <= |events|
  {
    WithinBudgets(Run(db, p, events[..n]), p, High(start, events, n))
  }

  lemma StepWithinExactly(db: Tables, p: Policy, event: Event, high: int)
    requires WithinBudgets(db, p, high) && event.Time() <= high
    ensures WithinBudgets(StepOf(db, p, event), p, high) <==>
      !(event.Evaluated?
        && (var key := StateKey(event.epoch, event.evidence.tokenId);
            var d := p.Evaluate(event.evidence, event.readTier);
            RevivesLapsed(db, key, event.evidence, d, p, event.evidence.evaluatedAt, high))
        && |ActiveTokens(db.schedules, high)| == p.maxActiveCoverage)
  {
    match event
    case Evaluated(epoch, e, readTier) =>
      StepKeepsTier3Budget(db, StateKey(epoch, e.tokenId), e, p.Evaluate(e, readTier), p, e.evaluatedAt);
      StepKeepsHighCoverageExactly(db, StateKey(epoch, e.tokenId), e, p.Evaluate(e, readTier), p, e.evaluatedAt, high);
    case Rescheduled(at, rows) =>
      FewerMembers(ActiveTokens(StepOf(db, p, event).schedules, high), ActiveTokens(db.schedules, high));
  }

  lemma NextWithinExactly(db: Tables, p: Policy, start: int, events: seq<Event>, n: nat)
    requires n < |events| && WithinAfter(db, p, start, events, n)
    ensures WithinAfter(db, p, start, events, n + 1) <==> !Overfills(db, p, start, events, n)
  {
    var before, high := Run(db, p, events[..n]), High(start, events, n + 1);
    assert events[..n + 1][..n] == events[..n];
    ActiveTokensExpire(before.schedules, High(start, events, n), high);
    StepWithinExactly(before, p, events[n], high);
  }

  predicate AlwaysWithin(db: Tables, p: Policy, start: int, events: seq<Event>, n: nat)
    requires n <= |events|
  {
    forall k :: 0 <= k <= n ==> WithinAfter(db, p, start, events, k)
  }

  predicate NeverOverfills(db: Tables, p: Policy, start: int, events: seq<Event>, n: nat)
    requires n <= |events|
  {
    forall k :: 0 <= k < n ==> !Overfills(db, p, start, events, k)
  }

  lemma OneMoreEvent(db: Tables, p: Policy, start: int, events: seq<Event>, n: nat)
    requires n < |events|
    ensures AlwaysWithin(db, p, start, events, n + 1)
            <==> AlwaysWithin(db, p, start, events, n) && WithinAfter(db, p, start, events, n + 1)
    ensures NeverOverfills(db, p, start, events, n + 1)
            <==> NeverOverfills(db, p, start, events, n) && !Overfills(db, p, start, events, n)
    ensures AlwaysWithin(db, p, start, events, n) ==> WithinAfter(db, p, start, events, n)
  {
  }

  lemma WithinAtStart(db: Tables, p: Policy, start: int, events: seq<Event>)
    requires WithinBudgets(db, p, start)
    ensures AlwaysWithin(db, p, start, events, 0)
  {
    assert Run(db, p, events[..0]) == db;
  }

  /** For times in any order: both budgets hold after every event, at the highest time so far, if and
      only if no evaluation revives lapsed coverage while the limit is full. */
  lemma {:induction false} RunKeepsBudgetsExactly(db: Tables, p: Policy, start: int, events: seq<Event>, n: nat)
    requires WithinBudgets(db, p, start) && n <= |events|
    ensures AlwaysWithin(db, p, start, events, n) <==> NeverOverfills(db, p, start, events, n)
  {
    if n == 0 {
      WithinAtStart(db, p, start, events);
    } else {
      RunKeepsBudgetsExactly(db, p, start, events, n - 1);
      ExactlyOneMore(db, p, start, events, n - 1);
    }
  }

  lemma ExactlyOneMore(db: Tables, p: Policy, start: int, events: seq<Event>, n: nat)
    requires n < |events| && (AlwaysWithin(db, p, start, events, n) <==> NeverOverfills(db, p, start, events, n))
    ensures AlwaysWithin(db, p, start, events, n + 1) <==> NeverOverfills(db, p, start, events, n + 1)
  {
    OneMoreEvent(db, p, start, events, n);
    if AlwaysWithin(db, p, start, events, n) {
      NextWithinExactly(db, p, start, events, n);
    }
  }

  /** When times do not go back no event overfills. */
  lemma InOrderNeverOverfills(db: Tables, p: Policy, start: int, events: seq<Event>, n: nat)
    requires n < |events| && InOrder(start, events)
    ensures !Overfills(db, p, start, events, n)
  {
    HighIsLast(start, events, n);
  }

  lemma {:induction false} HighIsLast(start: int, events: seq<Event>, n: nat)
    requires n < |events| && InOrder(start, events)
    ensures High(start, events, n + 1) == events[n].Time()
  {
    if 0 < n {
      HighIsLast(start, events, n - 1);
      assert TimeAfter(start, events[..n]) == events[n - 1].Time();
    }
    assert TimeAfter(start, events[..n]) <= events[n].Time();
  }

  // ---------------------------------------------------------------- a run that overfills

  const BLANK := Schedule(false, None, 5, None, None, None, None, None, None, 0)
  const TWO_ROWS := Tables(map[], map[0 := BLANK, 1 := BLANK])

  /** One slot of coverage: 10 ticks for Tier 1, 100 for Tier 2. */
  function OneSlot(p: Policy): Policy {
    p.(maxActiveCoverage := 1, tier1Ttl := 10, tier2Ttl := 100)
  }

  /** Token 0 is covered, runs out, token 1 takes the slot; then a clock that is behind extends
      token 0. */
  function SkewedRun(p: Policy): seq<Event> {
    [Evaluated(0, Boosted(1, QUIET, None, None), Tier0),
     Evaluated(0, Boosted(12, QUIET, None, None).(tokenId := 1), Tier0),
     Evaluated(0, Boosted(2, BusyMarket(p), Some(2), None), Tier1)]
  }

  function After(p: Policy, n: nat): Tables
    requires n <= 3
  {
    Run(TWO_ROWS, OneSlot(p), SkewedRun(p)[..n])
  }

  lemma NextIs(p: Policy, n: nat)
    requires n < 3
    ensures var e := SkewedRun(p)[n];
      After(p, n + 1) == EvaluateAt(After(p, n), OneSlot(p), 0, e.evidence, e.readTier)
  {
    assert SkewedRun(p)[..n + 1][..n] == SkewedRun(p)[..n];
  }

  /** The coverage of the two rows and the record of token 0. */
  predicate Covers(db: Tables, first: Option<int>, second: Option<int>) {
    && db.schedules.Keys == {0, 1}
    && db.schedules[0].coverageExpiresAt == first && db.schedules[1].coverageExpiresAt == second
    && (StateKey(0, 1) !in db.states <==> second.None?)
    && (StateKey(0, 0) in db.states ==>
          db.states[StateKey(0, 0)].tier == Tier1 && db.states[StateKey(0, 0)].inputWatermark == 1)
  }

  lemma ActiveOfTwo(db: Tables, first: Option<int>, second: Option<int>, now: int)
    requires Covers(db, first, second)
    ensures ActiveTokens(db.schedules, now) == (if InForce(first, now)
        then {0} else {}) + (if InForce(second, now) then {1} else {})
  {
  }

  lemma NominationGrants(p: Policy, at: nat, token: nat)
    ensures var e := Boosted(at, QUIET, None, None).(tokenId := token);
      var d := OneSlot(p).Evaluate(e, Tier0);
      d.eligible && d.target == Tier1 && d.coverageUntil == Some(at + 10)
  {
  }

  lemma FirstIsCovered(p: Policy)
    ensures Covers(After(p, 1), Some(11), None) && StateKey(0, 0) in After(p, 1).states
  {
    assert After(p, 0) == TWO_ROWS;
    NextIs(p, 0);
    NominationGrants(p, 1, 0);
    ActiveOfTwo(TWO_ROWS, None, None, 1);
  }

  lemma SecondIsCovered(p: Policy)
    requires Covers(After(p, 1), Some(11), None) && StateKey(0, 0) in After(p, 1).states
    ensures Covers(After(p, 2), Some(11), Some(22)) && StateKey(0, 0) in After(p, 2).states
  {
    NextIs(p, 1);
    NominationGrants(p, 12, 1);
    ActiveOfTwo(After(p, 1), Some(11), None, 12);
  }

  lemma LateClockExtends(p: Policy, db: Tables)
    requires 0 <= p.securityFreshness && Covers(db, Some(11), Some(22)) && StateKey(0, 0) in db.states
    ensures var e := Boosted(2, BusyMarket(p), Some(2), None);
      RevivesLapsed(db, StateKey(0, 0), e, OneSlot(p).Evaluate(e, Tier1), OneSlot(p), 2, 12)
  {
    BusyMarketMeets(p);
    assert OneSlot(p).Evaluate(Boosted(2, BusyMarket(p), Some(2), None), Tier1).target == Tier2;
  }

  /** Such a run exists: accepted records, of which the last was evaluated by a clock that is behind,
      take two tokens into the one slot. */
  lemma SkewedClockOverfills(p: Policy)
    requires 0 <= p.securityFreshness
    ensures forall i :: 0 <= i < 3 ==> SkewedRun(p)[i].evidence.Accepted()
    ensures Overfills(TWO_ROWS, OneSlot(p), 0, SkewedRun(p), 2)
    ensures !WithinCoverage(After(p, 3), OneSlot(p), 12)
  {
    FirstIsCovered(p);
    SecondIsCovered(p);
    LateClockExtends(p, After(p, 2));
    ActiveOfTwo(After(p, 2), Some(11), Some(22), 12);
    HighOfThree(p);
    LateClockOverfills(p, After(p, 2));
    NextIs(p, 2);
  }

  lemma LateClockOverfills(p: Policy, db: Tables)
    requires 0 <= p.securityFreshness && Covers(db, Some(11), Some(22)) && StateKey(0, 0) in db.states
    ensures var e := Boosted(2, BusyMarket(p), Some(2), None);
      !WithinCoverage(EvaluateAt(db, OneSlot(p), 0, e, Tier1), OneSlot(p), 12)
  {
    var e := Boosted(2, BusyMarket(p), Some(2), None);
    LateClockExtends(p, db);
    ActiveOfTwo(db, Some(11), Some(22), 12);
    StepKeepsHighCoverageExactly(db, StateKey(0, 0), e, OneSlot(p).Evaluate(e, Tier1), OneSlot(p), 2, 12);
  }

  lemma HighOfThree(p: Policy)
    ensures High(0, SkewedRun(p), 3) == 12
  {
    assert High(0, SkewedRun(p), 1) == 1 && High(0, SkewedRun(p), 2) == 12;
  }
}
